# Promo-code validation and order API: a Dafny model

This project models the core of a small food-ordering API written in Go. The core is the
promo-code service. It installs a fixed list of seed codes at start-up. A refresh cycle then
downloads three coupon files. It extracts candidate codes from each file: whitespace-separated
tokens with edge punctuation trimmed, upper-cased, 8 to 10 characters of `[A-Z0-9]`. It keeps the
codes that occur in at least two files, or in one file when only one download succeeded, and
installs them unless nothing was kept. The model also covers:

- an older variant of the service: a once-only `Init`, whole-file reads, and a quorum that is always two;
- the string validators;
- the order handler: request validation, product collection, and the place-order decision sequence;
- the product catalog and lookup;
- the health report and the readiness and liveness probes.

Modules: seven follow one source file each, and four hold shared definitions and properties (`Wrappers`, `GoStrings`, `Consensus`, `PromoProperties`):

| module | file | models |
|---|---|---|
| `Wrappers` | wrappers.dfy | `Option` and `Result` |
| `GoStrings` | gostrings.dfy | ASCII `strings.ToUpper`, `strings.Trim` with the cutset `.,!?;:"'()[]{}`, and `strings.Fields` |
| `Validation` | validation.dfy | backend-challenge/pkg/utils/validation.go, with `strconv.Atoi` for a 64-bit `int` |
| `Consensus` | consensus.dfy | the per-code tally and threshold selection that both promo services share |
| `Promo` | promo.dfy | backend-challenge/internal/services/promo.go; `PromoCodeService` is a class whose methods update its fields |
| `PromoProperties` | promo_properties.dfy | properties of extraction, consensus, lookup and the seed list |
| `LegacyPromo` | legacy_promo.dfy | backend-challenge/internal/models/promocode.go, and how it compares with the newer service |
| `Models` | models.dfy | the request and response types of backend-challenge/internal/models/models.go |
| `Products` | products.dfy | backend-challenge/internal/handlers/products.go |
| `Orders` | order.dfy | backend-challenge/internal/handlers/order.go |
| `Health` | health.dfy | backend-challenge/internal/handlers/health.go |

How the outside world enters the model:

- A refresh cycle receives the outcome of each download as a parameter. `None` means the download,
  decompression or read failed. `Some(blocks)` holds the text that successive `Read` calls returned.
- The failure of creating the temporary directory is a parameter too.
- The handlers receive the bound request body as `Option<OrderRequest>`, `None` meaning binding failed.
- The generated order ID is a parameter.
- The health handlers receive the promo service, or its status snapshot.

Points where the code behaves in a way a reader might not expect:

- **Read blocks.** `processGzipFile` (promo.go:183-210) calls `strings.Fields` on each 64 KiB
  `Read` block separately. A token that spans two blocks is therefore seen as two tokens.
  `Promo.Candidates` models this. `PromoProperties.ChunkedExtractionOnWordBoundaries` shows that
  block-by-block extraction equals whole-text extraction when no block boundary falls inside a
  word. `PromoProperties.ChunkBoundarySplitsCode` shows a code is lost when one does.
- **Data-source tag.** While the seed codes are served, `GetServiceStatus` (promo.go:312-314)
  reports the data source as `"mock"`.
- **`isFullyLoaded`.** The status field is documented as true when real codes are loaded
  (promo.go:328), but every cycle clears the underlying `isLoaded` flag when it starts
  (promo.go:62). A later failed cycle therefore reports a service that
  is not fully loaded, even though the codes of an earlier successful cycle are still served.
  `Promo.PromoCodeService.DownloadCodesAsync` models this.

## Model

| member | source | states |
|---|---|---|
| GoStrings.ToUpper | backend-challenge/pkg/utils/validation.go:34 | ASCII upper-casing keeps the length; each lower-case letter maps to its capital and every other character is unchanged |
| GoStrings.Trim | backend-challenge/pkg/utils/validation.go:34 | the result is no longer than the input, and neither of its end characters is in the cutset |
| GoStrings.IsSpace | backend-challenge/internal/services/promo.go:191 | the ASCII whitespace that `strings.Fields` splits on: tab, line feed, vertical tab, form feed, carriage return and space |
| GoStrings.InCutset | backend-challenge/pkg/utils/validation.go:34 | the fourteen punctuation characters `.,!?;:"'()[]{}` of the `strings.Trim` cutset |
| GoStrings.Fields | backend-challenge/internal/services/promo.go:191 | every field is non-empty and contains no whitespace; there are no fields exactly when the text is all whitespace |
| GoStrings.Layout | backend-challenge/internal/services/promo.go:191 | words joined by whitespace gaps, the shape of text `strings.Fields` reads |
| GoStrings.WellSpaced | backend-challenge/internal/services/promo.go:191 | the words are non-empty and space-free, the gaps are all whitespace, and consecutive words have a non-empty gap between them |
| GoStrings.FieldsOfLayout | backend-challenge/internal/services/promo.go:191 | splitting a well-spaced layout gives back exactly its words, in order |
| GoStrings.FieldsAfterSpaces | backend-challenge/internal/services/promo.go:191 | helper: leading whitespace contributes no field |
| GoStrings.FieldsWordThen | backend-challenge/internal/services/promo.go:191 | helper: a word followed by nothing or by whitespace is the first field |
| GoStrings.ToUpperNormalizes | backend-challenge/pkg/utils/validation.go:34 | after upper-casing no lower-case letter remains, and upper-casing twice equals upper-casing once |
| GoStrings.ToUpperAlphanumeric | backend-challenge/internal/services/promo.go:194-195 | the upper-cased string is all capitals and digits exactly when the input is all ASCII letters and digits |
| GoStrings.TrimIsCutsetStrip | backend-challenge/pkg/utils/validation.go:34 | Trim returns a contiguous slice of its input, and every character it removed is in the cutset |
| GoStrings.TrimClean | backend-challenge/pkg/utils/validation.go:34 | a string whose two ends are not in the cutset is returned unchanged |
| GoStrings.TrimIdempotent | backend-challenge/pkg/utils/validation.go:34 | trimming twice equals trimming once |
| GoStrings.UpperKeepsCutset | backend-challenge/pkg/utils/validation.go:34 | upper-casing a character keeps it in the cutset or out of it |
| GoStrings.TrimUpperCommute | backend-challenge/pkg/utils/validation.go:34 | trimming then upper-casing gives the same string as upper-casing then trimming |
| GoStrings.FieldsOfWord | backend-challenge/internal/services/promo.go:191 | a non-empty string without whitespace is a single field |
| GoStrings.FieldsAppend | backend-challenge/internal/services/promo.go:190-191 | when the first text is empty or ends in whitespace, the fields of a concatenation are the two lists of fields concatenated |
| Validation.SignedDigits | backend-challenge/pkg/utils/validation.go:15 | the syntax `strconv.Atoi` accepts: an optional `+` or `-`, then one or more decimal digits |
| Validation.SignedValue | backend-challenge/pkg/utils/validation.go:15 | the number such a string denotes, negative after a `-` |
| Validation.Atoi | backend-challenge/pkg/utils/validation.go:15 | a value comes back exactly for an optional sign followed by at least one decimal digit whose signed value lies in the 64-bit range, and it is that signed value |
| Validation.IsValidID | backend-challenge/pkg/utils/validation.go:9-20 | an ID is valid exactly when `Atoi` accepts it, that is exactly when it is an optional sign and one or more digits whose value is within the 64-bit range |
| Validation.LenientForms | backend-challenge/pkg/utils/validation.go:15-19 | "+7", "007" and "-0" are valid IDs, parsing to 7, 7 and 0 |
| Validation.IsAlphanumeric | backend-challenge/pkg/utils/validation.go:23-30 | true exactly when every character is an ASCII letter of either case or a digit (true on the empty string) |
| Validation.SanitizeString | backend-challenge/pkg/utils/validation.go:33-35 | the result is no longer than the input, has no lower-case letter, and has no cutset character at either end |
| Validation.DecimalDigitsValue | backend-challenge/pkg/utils/validation.go:15 | the decimal rendering of a natural number reads back as that number |
| Validation.AtoiItoa | backend-challenge/pkg/utils/validation.go:9-20 | every 64-bit integer, once rendered in decimal, parses back to itself and is a valid ID |
| Validation.NonDigitRejected | backend-challenge/pkg/utils/validation.go:15-17 | a non-digit anywhere except a leading sign position makes an ID invalid |
| Validation.SignAloneRejected | backend-challenge/pkg/utils/validation.go:15-17 | a bare sign is not a valid ID |
| Validation.ItoaValidIffInRange | backend-challenge/pkg/utils/validation.go:15-17 | a rendered integer is a valid ID exactly when it lies in the 64-bit range |
| Validation.IsValidIDExamples | backend-challenge/pkg/utils/validation.go:9-20 | "123", "1" and "999999" are valid; "", "abc", "123abc", "123 456" and "123!" are not |
| Validation.SanitizeIdempotent | backend-challenge/pkg/utils/validation.go:33-35 | sanitizing twice equals sanitizing once |
| Validation.SanitizeClean | backend-challenge/pkg/utils/validation.go:33-35 | a string without lower-case letters and without cutset characters at its ends is returned unchanged |
| Validation.SanitizeKeepsInnerPunctuation | backend-challenge/pkg/utils/validation.go:33-35 | only edge punctuation goes: "hello,world!" becomes "HELLO,WORLD" |
| Validation.SanitizeStripsBrackets | backend-challenge/pkg/utils/validation.go:33-35 | "(bracketed)" becomes "BRACKETED" |
| Consensus.Count | backend-challenge/internal/services/promo.go:216-221 | the number of sources holding a code never exceeds the number of sources |
| Consensus.Union | backend-challenge/internal/services/promo.go:216-221 | the keys of the tally map: every code seen in some source |
| Consensus.Quorum | backend-challenge/internal/services/promo.go:229-235 | the codes of the union whose count reaches the threshold, as the filtering loop keeps them |
| Consensus.CountPositiveIffInUnion | backend-challenge/internal/services/promo.go:216-221 | a code has a positive count exactly when some source holds it |
| Consensus.UnionMembership | backend-challenge/internal/services/promo.go:216-221 | a code is tallied exactly when some source holds it |
| Consensus.QuorumMembership | backend-challenge/internal/services/promo.go:229-235 | for a positive threshold, a code is selected exactly when its count reaches the threshold |
| Consensus.QuorumWithinUnion | backend-challenge/internal/services/promo.go:229-235 | every selected code occurs in some source |
| Consensus.CountIgnoresEmpty | backend-challenge/internal/services/promo.go:216-221 | an empty source set, such as a failed source's nil map, contributes nothing to any count |
| Consensus.CountSingleSource | backend-challenge/internal/services/promo.go:216-221 | when all sources but one are empty, a code's count is 1 if that source holds it and 0 otherwise |
| Consensus.CountNone | backend-challenge/internal/services/promo.go:216-221 | when every source is empty, every count is 0 |
| Consensus.QuorumSingleSource | backend-challenge/internal/services/promo.go:223-235 | when all sources but one are empty, threshold 1 selects exactly that source's codes and threshold 2 selects nothing |
| Consensus.CountSnoc | backend-challenge/internal/services/promo.go:217-221 | helper: adding one source raises the count of exactly its own codes by one and adds its codes to the union |
| Consensus.AddSource | backend-challenge/internal/services/promo.go:218-220 | the inner counting loop over one source: the tally gains that source's codes as keys, each of them counted once more, and every other entry is unchanged |
| Consensus.TallyCodes | backend-challenge/internal/services/promo.go:216-221 | the tally's keys are exactly the codes occurring in some source, and each entry is that code's number of sources |
| Consensus.SelectByQuorum | backend-challenge/internal/services/promo.go:216-235 | the selected codes are exactly those whose source count reaches the threshold |
| Promo.ValidFormat | backend-challenge/internal/services/promo.go:333-346 | the promo-code format: 8 to 10 characters, each an ASCII capital or digit |
| Promo.IsValidPromoCodeFormat | backend-challenge/internal/services/promo.go:333-346 | the length test and the early-exit scan return exactly the format predicate |
| Promo.ExtractWords | backend-challenge/internal/services/promo.go:193-199 | every code extracted from a list of tokens is well formed |
| Promo.ExtractChunk | backend-challenge/internal/services/promo.go:189-199 | every code extracted from one read block is well formed |
| Promo.Candidates | backend-challenge/internal/services/promo.go:183-210 | every candidate of a file is well formed |
| Promo.ExtractWordsSnoc | backend-challenge/internal/services/promo.go:193-197 | helper: one more token adds its cleaned form to the extracted codes exactly when that form is well formed |
| Promo.ExtractFromBlock | backend-challenge/internal/services/promo.go:190-199 | the token loop for one read block computes exactly that block's extracted codes |
| Promo.ProcessGzipFile | backend-challenge/internal/services/promo.go:183-210 | the nested loops compute the union, over the read blocks, of each block's extracted codes |
| Promo.Threshold | backend-challenge/internal/services/promo.go:223-227 | the threshold is 1 or 2, and it is 1 exactly when one source succeeded |
| Promo.SourceCodes | backend-challenge/internal/services/promo.go:82-97 | one set per source: a successful source's candidates, and the empty set for a failed one |
| Promo.RefreshConsensus | backend-challenge/internal/services/promo.go:214-235 | the set one cycle installs: the quorum, at the cycle's threshold, of the per-source candidate sets |
| Promo.Accepts | backend-challenge/internal/services/promo.go:278-289 | the lookup answer: the upper-cased code is well formed and stored |
| Promo.Successes | backend-challenge/internal/services/promo.go:83-96 | the success count never exceeds the number of sources |
| Promo.PromoCodeService.constructor | backend-challenge/internal/services/promo.go:30-35 | a new service has no codes, a zero counter, no error and is not loaded |
| Promo.PromoCodeService.Initialize | backend-challenge/internal/services/promo.go:38-49 | the seed codes are added and nil is returned; the background cycle is `DownloadCodesAsync` |
| Promo.PromoCodeService.LoadMockPromoCodes | backend-challenge/internal/services/promo.go:260-275 | the seed codes are added to the set, and the counter becomes the length of the seed list |
| Promo.PromoCodeService.IsValidPromoCode | backend-challenge/internal/services/promo.go:278-289 | true exactly when the upper-cased code is well formed and stored; a malformed code is always rejected |
| Promo.PromoCodeService.GetValidCodesCount | backend-challenge/internal/services/promo.go:292-294 | the stored counter, which equals the number of stored codes whenever the two agree |
| Promo.PromoCodeService.GetServiceStatus | backend-challenge/internal/services/promo.go:297-321 | "ready"/"remote" exactly when loaded; "loading"/"mock" exactly when not loaded with a positive count; "initializing"/"none" otherwise; the count, loaded flag and last error are copied |
| Promo.PromoCodeService.ReplaceWithRealCodes | backend-challenge/internal/services/promo.go:214-250 | an empty selection returns "no valid codes found" and changes nothing; otherwise the selection replaces the set and the counter becomes its size |
| Promo.PromoCodeService.DownloadCodesAsync | backend-challenge/internal/services/promo.go:52-117 | the four outcomes: temp-directory error, no file processed, empty consensus (each leaves the codes and records its error), and success; loaded exactly when no error is recorded; a cycle never empties a non-empty set, and a counter that matched the set's size before still matches after |
| Promo.PromoCodeService.ForceReload | backend-challenge/internal/services/promo.go:348-352 | one refresh cycle with the same four outcomes as `DownloadCodesAsync`: each failure records its error and keeps the codes; success installs the consensus and its size; loaded exactly when no error is recorded |
| PromoProperties.FormatExamples | backend-challenge/internal/services/promo.go:333-346 | 8-, 9- and 10-character codes and all-digit codes pass; 7 characters, 11+, lower case, symbols, spaces and "" fail |
| PromoProperties.FormatOfUpper | backend-challenge/internal/services/promo.go:279-280 | after upper-casing, exactly the 8-10 character ASCII alphanumeric strings of either case pass the format check |
| PromoProperties.ValidFormatIsClean | backend-challenge/internal/services/promo.go:194 | a well-formed code is unchanged by cleaning, so extraction reproduces it verbatim |
| PromoProperties.ExtractWordsContains | backend-challenge/internal/services/promo.go:193-197 | a token whose cleaned form is well formed contributes that cleaned form |
| PromoProperties.ExtractWordsSource | backend-challenge/internal/services/promo.go:193-197 | every extracted code is the cleaned form of some token |
| PromoProperties.CandidatesContains | backend-challenge/internal/services/promo.go:187-199 | every well-formed cleaned token of every read block is a candidate of the file |
| PromoProperties.CandidatesSource | backend-challenge/internal/services/promo.go:187-199 | every candidate is the cleaned form of some token of some read block |
| PromoProperties.ExtractWordsAppend | backend-challenge/internal/services/promo.go:193-199 | extraction over two token lists joined is the union of the two extractions |
| PromoProperties.ChunkedExtractionOnWordBoundaries | backend-challenge/internal/services/promo.go:187-199 | when every block but the last ends in whitespace, block-by-block extraction equals extraction from the joined text |
| PromoProperties.ChunkBoundarySplitsCode | backend-challenge/internal/services/promo.go:187-199 | a well-formed code found when read in one block is not a candidate when it arrives split over two blocks |
| PromoProperties.TwoChunks | backend-challenge/internal/services/promo.go:187-199 | helper: a file read in two blocks has the union of the two blocks' candidates |
| PromoProperties.TokenChunk | backend-challenge/internal/services/promo.go:189-199 | a block holding a single token yields that token's cleaned form when it is well formed, else nothing |
| PromoProperties.SingleWordChunk | backend-challenge/internal/services/promo.go:189-199 | a block holding one well-formed code yields exactly that code |
| PromoProperties.ShortWordChunk | backend-challenge/internal/services/promo.go:195 | a two-character token yields nothing |
| PromoProperties.SanitizeExample | backend-challenge/internal/services/promo.go:194 | the token "save20off!" is cleaned to "SAVE20OFF" |
| PromoProperties.NormalizationExample | backend-challenge/internal/services/promo.go:194-196 | a block holding only "save20off!" yields exactly "SAVE20OFF" |
| PromoProperties.CountAtMostSuccesses | backend-challenge/internal/services/promo.go:82-97 | no code occurs in more sources than succeeded, because a failed source contributes nothing |
| PromoProperties.RefreshConsensusMembership | backend-challenge/internal/services/promo.go:214-235 | a code enters the refreshed set exactly when its source count reaches the cycle's threshold |
| PromoProperties.MajorityWithSeveralSources | backend-challenge/internal/services/promo.go:224-235 | with two or more successes, a code in two sources is kept and a code in only one is dropped |
| PromoProperties.NoSuccessNoCodes | backend-challenge/internal/services/promo.go:100-104 | with no successful source the consensus is empty |
| PromoProperties.SingleSourceTrusted | backend-challenge/internal/services/promo.go:224-227 | with exactly one successful source, all of that source's candidates are kept |
| PromoProperties.TwoOfThreeScenario | backend-challenge/internal/services/promo.go:214-235 | with sources {CODE1234, ABCDEFGH}, {CODE1234, ZZZZZZZZ} and a failure, only CODE1234 is kept |
| PromoProperties.AcceptsIgnoresCase | backend-challenge/internal/services/promo.go:278-280 | lookup gives the same answer for a code and its upper-cased form |
| PromoProperties.AcceptsOnlyWellFormed | backend-challenge/internal/services/promo.go:278-289 | a malformed code is rejected whatever is stored; a well-formed one is accepted exactly when its upper-cased form is stored |
| PromoProperties.LookupExamples | backend-challenge/internal/services/promo.go:278-289 | "happyhrs" and "FiftyOff" are accepted against their stored forms; an over-long code and an absent code are rejected |
| PromoProperties.MockSetContents | backend-challenge/internal/services/promo.go:261-265 | the seed list holds exactly the fifteen listed codes |
| PromoProperties.MockSetSize | backend-challenge/internal/services/promo.go:261-273 | the fifteen seed codes are distinct, so on a fresh service the counter equals the size of the set |
| PromoProperties.MockStudentUnredeemable | backend-challenge/internal/services/promo.go:264 | the seven-letter seed code "STUDENT" is stored but can never be redeemed; every other seed code can |
| LegacyPromo.IsAlphanumeric | backend-challenge/internal/models/promocode.go:112-119 | true exactly when every character is a capital or a digit (true on the empty string) |
| LegacyPromo.DownloadAndProcessCouponFile | backend-challenge/internal/models/promocode.go:94-108 | the loop computes exactly the extracted codes of the whole text: its cleaned tokens of 8 to 10 capitals and digits |
| LegacyPromo.IsCandidate | backend-challenge/internal/models/promocode.go:103 | the length test together with the legacy `isAlphanumeric` is exactly the well-formedness test of the newer service |
| LegacyPromo.WholeTextIsOneBlock | backend-challenge/internal/models/promocode.go:88-96 | helper: reading a file whole gives the same candidates as the newer service reading it in one block |
| LegacyPromo.FileCodes | backend-challenge/internal/models/promocode.go:36-49 | one set per file: the text's codes, or the empty map made up front when the file failed |
| LegacyPromo.InitConsensus | backend-challenge/internal/models/promocode.go:51-64 | the codes `Init` adds: those in at least two files, whatever the number of files read |
| LegacyPromo.AsBlocks | backend-challenge/internal/models/promocode.go:88 | each whole text becomes a single read block, and each failure stays a failure |
| LegacyPromo.SameSourceSets | backend-challenge/internal/models/promocode.go:36-49 | both services derive the same per-source sets from files read whole |
| LegacyPromo.LegacyMatchesRefresh | backend-challenge/internal/models/promocode.go:51-64 | unless exactly one file was read, the legacy consensus equals the newer service's consensus over the same files |
| LegacyPromo.LegacyDropsSingleSource | backend-challenge/internal/models/promocode.go:59-64 | with exactly one file read, the legacy service keeps nothing, while the newer service keeps every candidate of that file |
| LegacyPromo.PromoCodeService.constructor | backend-challenge/internal/models/promocode.go:18-22 | a new service has no codes and has not run its initialisation |
| LegacyPromo.PromoCodeService.Init | backend-challenge/internal/models/promocode.go:25-69 | the error is always nil; the first call adds the codes found in two or more files and later calls change nothing; the stored codes stay well formed |
| LegacyPromo.PromoCodeService.IsValidPromoCode | backend-challenge/internal/models/promocode.go:122-127 | accepted exactly when the length is 8 to 10 and the upper-cased code is stored, with no character-class check; with well-formed stored codes the answer equals the newer service's lookup |
| Products.NewProductHandler | backend-challenge/internal/handlers/products.go:18-34 | the handler serves the fixed catalog |
| Products.FirstMatch | backend-challenge/internal/handlers/products.go:70-77 | a match is a catalog product with the requested ID; there is no match exactly when no product has that ID |
| Products.FirstMatchIsFirst | backend-challenge/internal/handlers/products.go:71-75 | the match sits at an index before which no product has the ID |
| Products.FirstMatchUnique | backend-challenge/internal/handlers/products.go:71-75 | when IDs are distinct, the match is the product with that ID wherever it sits |
| Products.GetProductByID | backend-challenge/internal/handlers/products.go:70-77 | the linear search with early return finds the first product with the ID, or reports none |
| Products.ListProducts | backend-challenge/internal/handlers/products.go:37-39 | status 200 with the whole catalog, unchanged |
| Products.GetProduct | backend-challenge/internal/handlers/products.go:42-67 | 400 for an invalid ID before any search; for a valid ID, 200 with the first matching product, or 404; a 200 always carries a catalog product with the requested ID |
| Products.CatalogIDs | backend-challenge/internal/handlers/products.go:20-29 | eight products with IDs "1" to "8", no two alike |
| Products.CatalogIDsValid | backend-challenge/internal/handlers/products.go:20-29 | every catalog ID passes `IsValidID` |
| Products.CatalogLookup | backend-challenge/internal/handlers/products.go:70-77 | each catalog product is found by its own ID |
| Products.NotACatalogID | backend-challenge/internal/handlers/products.go:20-29 | no ID longer than one character names a catalog product |
| Products.LeadingZeroValid | backend-challenge/pkg/utils/validation.go:15-19 | "01" passes the ID check, since `strconv.Atoi` accepts leading zeros |
| Products.CatalogMisses | backend-challenge/internal/handlers/products.go:55-66 | "999" and "01" are valid IDs that are not in the catalog |
| Models.ErrorResponse | backend-challenge/internal/handlers/order.go:37-41 | the error body every handler writes: the HTTP code repeated as `code`, the type "error", and the message |
| Orders.ItemOk | backend-challenge/internal/handlers/order.go:95-103 | the three checks an item must pass: a non-empty product ID, a positive quantity, and a valid ID |
| Orders.ItemError | backend-challenge/internal/handlers/order.go:95-103 | an item has no error exactly when its ID is non-empty, its quantity is positive and its ID is valid; any message is one of the three item messages |
| Orders.FirstItemError | backend-challenge/internal/handlers/order.go:94-104 | no error exactly when every item passes its checks |
| Orders.ValidationError | backend-challenge/internal/handlers/order.go:89-107 | nil exactly when the order has items and every item has a non-empty valid ID and a positive quantity; an empty order gets "order must contain at least one item" |
| Orders.FirstItemErrorSource | backend-challenge/internal/handlers/order.go:94-104 | the reported error is that of an item before which every item passed |
| Orders.FirstItemErrorPrefix | backend-challenge/internal/handlers/order.go:94-104 | once a prefix has failed, the later items do not change the error |
| Orders.ValidateOrderRequest | backend-challenge/internal/handlers/order.go:89-107 | the early-return loop returns exactly the validation error of the request's items |
| Orders.CollectProducts | backend-challenge/internal/handlers/order.go:110-122 | success exactly when every item's ID is in the catalog; then one product per item, in item order, each the catalog match of its item's ID |
| Orders.CollectErrorSource | backend-challenge/internal/handlers/order.go:113-117 | a failure names the first item whose ID is missing, and every earlier item was found |
| Orders.CollectPrefix | backend-challenge/internal/handlers/order.go:113-117 | once a prefix has failed, the later items do not change the error |
| Orders.ValidateAndCollectProducts | backend-challenge/internal/handlers/order.go:110-122 | the append loop returns exactly the collected products, or the first missing-product error |
| Orders.NewOrderHandler | backend-challenge/internal/handlers/order.go:25-30 | the handler keeps the given promo service and serves the fixed catalog |
| Orders.PlaceOrder | backend-challenge/internal/handlers/order.go:33-86 | 400 on a bad body; 422 with the validation error; 422 with the missing-product error; 422 "Invalid promo code" for a non-empty coupon the service rejects; otherwise 200 with the order; a 200 order carries the request's items and one matching catalog product per item |
| Health.OverallStatus | backend-challenge/internal/handlers/health.go:43-51 | "starting" exactly when no code is loaded; "degraded" exactly when codes are loaded, the service is not fully loaded, and an error is recorded; "healthy" otherwise |
| Health.PromoDetails | backend-challenge/internal/handlers/health.go:34-40 | every promo status field is copied unchanged |
| Health.HealthReport | backend-challenge/internal/handlers/health.go:25-54 | always 200; the service name, the overall status, and a code count equal to the copied `codesLoaded` |
| Health.LivenessProbe | backend-challenge/internal/handlers/health.go:57-61 | always 200 "alive" |
| Health.ReadinessProbe | backend-challenge/internal/handlers/health.go:64-76 | 200 "ready" exactly when the count is positive, else 503 "not_ready" |
| Health.StartingIffNotReady | backend-challenge/internal/handlers/health.go:45-46 | for one service, the report says "starting" exactly when the readiness probe answers 503 |
| Health.ServiceHealth | backend-challenge/internal/handlers/health.go:43-51 | a service's overall status in terms of its counter, loaded flag and recorded error |
| Health.LoadedIsHealthy | backend-challenge/internal/handlers/health.go:43-51 | a fully loaded service with codes reports "healthy" from data source "remote" |
| Health.FailedRefreshIsDegraded | backend-challenge/internal/handlers/health.go:48-50 | a service serving seed codes after a failed refresh reports "degraded" from data source "mock" |

## Left out

- Network downloads (the `grab` client, `http.Get`), temporary files and gzip decompression: a refresh cycle receives their outcome as a parameter.
- The 20-minute download timeout and the progress-ticker goroutine: they only affect timing and logging.
- Goroutines, `sync.RWMutex`, `sync/atomic` and `sync.Once`: the model runs every operation sequentially. `Initialize` stops after seeding the codes; the background cycle it launches is the separate `DownloadCodesAsync` call. `ForceReload` runs the cycle to completion instead of launching it in the background. The once-guard is a boolean field.
- Promo.PromoCodeService.LoadMockPromoCodes: on a service that already holds other codes, the counter (15) no longer equals the set's size. The model states this as it is. A failed `DownloadCodesAsync` cycle keeps the two in step only when they agreed before; a successful one always sets the counter to the size of the new set, so it brings the two back in step.
- The `int32` code counter: the model uses an unbounded `nat`, since no code set comes near 2^31 entries.
- `generateOrderID` (wall-clock time and `crypto/rand`): the order ID is a parameter of `PlaceOrder`.
- Product prices (`float64`): dropped from `Product`.
- Echo routing, request binding, JSON encoding, the API-key middleware, configuration and `main`: binding is an `Option` parameter of `PlaceOrder`.
- Logging everywhere.
- Unicode: `ToUpper`, `Trim` and `Fields` are modelled on ASCII. Go's Unicode case mapping and Unicode whitespace are not modelled.
- `strconv.Atoi` error values: the model only records whether parsing succeeded, which is all `IsValidID` uses.
