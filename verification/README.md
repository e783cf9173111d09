# Coffee Batch Tracker — a Dafny model of its pure core

Coffee Batch Tracker is a web application for attestations on a blockchain.
Each attestation records one stage of a coffee batch's journey through six
stages: Farm, Processing, Export, Import, Roasting and Retail. The
application is mostly UI and wallet code. This project models the parts of it
that are sequential rules over data, and proves properties of them:

- **The field decoder** (`AttestationHelpers`). It turns the indexer's
  `{name, value}` list into a partial attestation record:
  - it dispatches on the field name;
  - it parses the timestamp from base-16 text;
  - it resolves a stage name to its index, or to -1.

  The JavaScript built-ins it relies on are modelled in `JsNumber` and
  `Numerals`: `parseInt(s, 16)` and its digit arithmetic.
- **The record-store client's post-processing** (`AttestationsApi`):
  - dropping records with an empty or unparseable payload;
  - the by-id lookup, the raw count and the exact `batchId` filter;
  - the ordered eight-field list handed to the schema encoder.

  The encoder is modelled only as far as saying which argument values fit
  their declared ABI types. The indexer is assumed to serve every value
  other than a `uint256` back verbatim. Under that assumption, the proof
  shows two things for values that fit: the decoder's dispatch puts each
  item back into its own field, and the timestamp's hex form parses back to
  the original number.
- **The attestations table** (`AttestationsTable`, `Sorting`):
  - the case-insensitive column filter;
  - the stable ascending or descending sort;
  - pagination, the page count and the Previous/Next clamps;
  - column labels, the abbreviated id and the rendering of a cell value.

  The JavaScript string built-ins it uses are in `JsText`: `toLowerCase`,
  `includes`, `trim`, string `<` and `split`.
- **The search box** (`SearchBar`): the search over `batchId`, the reset on
  an empty term, the result labels, and the click on a result or outside the
  box.
- **The creation dialog** (`AttestationModal`): the form-validity predicate,
  the submit transitions, the stage options and what the dialog shows.
- **The seeding script's simulation** (`RegisterAttestations`):
  - choosing a country and city per stage, the certifications and the
    waiting interval;
  - initialising batches, and which batches are eligible for an update;
  - advancing a batch through the stages.

  Every `Math.random()` draw is an explicit argument `r` with
  0 <= r < 1, and the script's `Math.floor(r * n)` index is computed from it.

`Seqs` holds the sequence operations used throughout: JavaScript's `filter`,
`map`, `indexOf`, `slice` and `join`, plus subsequence and filter lemmas.

Field values stay JavaScript-shaped (`Value`: a number, `NaN`, a string, a
string list or a `{hex}` big number). The TypeScript cast `as DecodedData` is
unchecked, so a decoded record is eight optional `Value`s.

Where the design description of the system and the code disagree, the model
follows the code:

- **The count.** The description says the count is the fetch-and-decode list
  counted. `fetchTotalAttestations` counts the raw records instead (Findings,
  row 2).
- **The timestamp.** The description says a timestamp without a usable hex
  value is left absent. The code leaves it absent only when `hex` is missing
  or empty. A non-empty `hex` that `parseInt` cannot read gives `NaN`
  (`AttestationHelpers.TimestampValue`).
- **The `txid` field.** The record type declares `txid` as always present.
  `fetchAttestations` never copies it, so `Attestation.txid` is an
  `Option<string>`.

## Model

| member | source | states |
|---|---|---|
| AttestationTypes.FieldNamed | src/types/attestation.ts:1-10 | A column name selects a schema field exactly when it is one of the eight field names, and then it names that field. |
| AttestationTypes.SchemaFieldsComplete | scripts/registerSchema.ts:9-10 | Every record field appears in the schema's field order, and its name maps back to it. |
| AttestationTypes.SchemaFieldsDistinct | scripts/registerSchema.ts:9-10 | The schema declares no field twice. |
| AttestationTypes.Set | src/utils/attestationHelpers.ts:11-23 | Assigning one field of a partial record changes that field and leaves the other seven as they were. |
| AttestationTypes.StageNamesDistinct | src/utils/attestationHelpers.ts:6 | The six stage names are pairwise different, so resolving a name by index is unambiguous. |
| AttestationHelpers.TimestampValue | src/utils/attestationHelpers.ts:11-13 | A timestamp entry gives a value exactly when it carries a non-empty `hex`. That value is `NaN` exactly when the hex has no leading digit, and otherwise it is the base-16 number. |
| AttestationHelpers.StageValue | src/utils/attestationHelpers.ts:6-15 | A numeric stage is kept unchanged. A known stage name becomes its index in Farm…Retail. Any other value becomes -1, and nothing throws. |
| AttestationHelpers.DecodeLastEntryWins | src/utils/attestationHelpers.ts:8-24 | When a field occurs several times with a usable value, the record holds the last occurrence's decoded value. |
| AttestationHelpers.DecodeAbsentField | src/utils/attestationHelpers.ts:9 | A field with no entry carrying a non-null value stays absent; it is not defaulted. |
| AttestationHelpers.DecodeIgnoresOtherEntries | src/utils/attestationHelpers.ts:5-25 | Entries with names outside the schema, or with null or undefined values, have no effect on the decoded record. |
| AttestationHelpers.StageNameDecodesToIndex | src/utils/attestationHelpers.ts:6-15 | Decoding a stage given by its name yields that name's index, so "Processing" decodes to 1. |
| AttestationHelpers.StageNumberOrUnknownName | src/utils/attestationHelpers.ts:15 | A numeric stage decodes to itself, and an unrecognised stage name decodes to -1. |
| JsNumber.ParseInt16 | src/utils/attestationHelpers.ts:12 | `parseInt(s, 16)` fails (is `NaN`) exactly when no hex digit follows the optional sign and `0x` prefix. Without a minus sign the result is non-negative. |
| JsNumber.ParseFormatHex | src/utils/attestationHelpers.ts:12 | Parsing the `0x` hex form of any natural number gives that number back. |
| JsNumber.ParseInt16NoDigits | src/utils/attestationHelpers.ts:12 | The empty string, a bare `0x` and `0x` followed by non-digits all parse to `NaN`. |
| Seqs.FilterCounts | src/components/AttestationsTable.tsx:85 | `filter` keeps every copy of an element that passes and no copy of one that does not. |
| Seqs.IndexOf | src/utils/attestationHelpers.ts:15 | `indexOf` is -1 exactly when the element is absent; otherwise it is the position of its first occurrence. |
| AttestationsApi.Normalize | src/api/attestations.ts:44-59 | A raw record is kept exactly when its payload is a non-empty string that parses. The kept record has the raw id and no `txid`. |
| AttestationsApi.FetchAttestations | src/api/attestations.ts:32-69 | A failed request or an answer without an attestation list gives []. Otherwise the result has at most as many records as the answer, and no record carries a `txid`. |
| AttestationsApi.FetchAttestationsDecodesSurvivors | src/api/attestations.ts:43-60 | The fetch returns the surviving raw records, in their input order and with their multiplicity, each decoded: the i-th result is the i-th survivor's id with its decoded payload and no `txid`. |
| AttestationsApi.FetchAttestationsKeepsSurvivors | src/api/attestations.ts:43-60 | The fetched ids are exactly the ids of the surviving raw records, in their input order. |
| AttestationsApi.FetchAttestationsMembers | src/api/attestations.ts:43-60 | A record is fetched if and only if some surviving raw record has its id and its decoded payload. |
| AttestationsApi.OneEmptyPayloadOfThree | src/api/attestations.ts:43-60 | Of three raw records where the middle payload is empty, exactly the other two are returned, in order. |
| AttestationsApi.FetchAttestationById | src/api/attestations.ts:120-143 | The lookup gives a record exactly when the request succeeded and the record exists and survives. It copies `id` and `txid` and decodes the payload; every failure gives null. |
| AttestationsApi.FetchTotalAttestations | src/api/attestations.ts:145-165 | The count is the number of raw records in the answer. A non-array answer with a numeric `length` counts as that length. A failed request, or an answer without a numeric `length`, counts 0. |
| AttestationsApi.CountAcceptsNonArrayLength | src/api/attestations.ts:151-156 | A non-array answer with a numeric `length` n is counted as n, while the list fetch returns [] for the same answer. |
| AttestationsApi.TotalIsAtLeastFetched | src/api/attestations.ts:151-156 | For the same answer, the count is never smaller than the number of fetched records. |
| AttestationsApi.TotalCountsDroppedRecords | src/api/attestations.ts:43-156 | One raw record without a payload is counted as 1, yet the fetch returns no record. |
| AttestationsApi.FetchTotalDecoded | src/api/attestations.ts:43-60 | The corrected count is the number of records that survive decoding, and never exceeds the raw count. |
| AttestationsApi.FetchAttestationsByBatchId | src/api/attestations.ts:167-183 | The result holds exactly the fetched records whose `batchId` equals the argument, case-sensitively, as a subsequence of the fetch order, each as many times as it was fetched. |
| AttestationsApi.EncodeList | src/api/attestations.ts:90-99 | The encoder receives eight items, named in the schema's field order. |
| AttestationsApi.EncodeListMatchesSchema | src/api/attestations.ts:86-99 | The items' names and ABI types, in order, are exactly the schema's declarations. |
| AttestationsApi.ZeroHashIsBytes32 | scripts/registerAttestations.ts:370 | The zero hash is `0x` followed by 64 hex digits, a valid `bytes32`. |
| AttestationsApi.EncodeDecodeRoundTrip | src/api/attestations.ts:90-99 | When every argument fits its ABI type, decoding what the indexer serves for the encoded list reproduces every argument. The timestamp comes back through its hex form; the other seven are echoed values the dispatch puts back into their own fields. |
| AttestationsApi.RoundTripField | src/api/attestations.ts:90-99 | The same round trip, one field at a time. |
| AttestationsApi.IndexedValueDecodes | src/utils/attestationHelpers.ts:11-24 | Each encoded item decodes to the argument it was built from. |
| AttestationsApi.TimestampDecodes | src/utils/attestationHelpers.ts:11-13 | A `uint256` timestamp, once it has gone through the indexer's hex form, decodes to the original number. |
| AttestationsTable.Cell | src/components/AttestationsTable.tsx:87 | A cell is the record's value for the named schema field, and undefined for any other column name. |
| AttestationsTable.JsString | src/components/AttestationsTable.tsx:88 | `String(value)` gives a string unchanged, and gives "undefined" for an absent value. |
| AttestationsTable.FilterRowsInactive | src/components/AttestationsTable.tsx:86 | With an empty filter column or an empty filter value, filtering returns the list unchanged. |
| AttestationsTable.FilterRowsMembers | src/components/AttestationsTable.tsx:85-89 | With both set, a record is kept if and only if it is in the list and its cell's text contains the value, ignoring case, and a kept record appears as many times as in the input. |
| AttestationsTable.FilterRowsSubsequence | src/components/AttestationsTable.tsx:85-89 | The filtered list is an order-preserving subsequence of the input. |
| AttestationsTable.FilterRowsIdempotent | src/components/AttestationsTable.tsx:85-89 | Filtering twice with the same settings equals filtering once. |
| AttestationsTable.SortRows | src/components/AttestationsTable.tsx:91-98 | Sorting returns a permutation of its input. |
| AttestationsTable.CompareMatchesKeys | src/components/AttestationsTable.tsx:91-98 | On cells of one kind, the source comparator's sign agrees with the model's key order in the chosen direction: negative, positive or zero. |
| AttestationsTable.SortRowsOrdered | src/components/AttestationsTable.tsx:91-98 | On a column whose cells are all numbers, all strings or absent, every earlier row compares at most equal to every later row under the source comparator. |
| AttestationsTable.SortRowsStable | src/components/AttestationsTable.tsx:91-98 | Rows with equal sort keys keep their relative input order. |
| AttestationsTable.SortRowsNoColumn | src/components/AttestationsTable.tsx:92 | Without a sort column the order is unchanged. |
| AttestationsTable.ToggleInvolutive | src/components/AttestationsTable.tsx:146-149 | Toggling the direction twice restores it, and the two directions show different labels. |
| AttestationsTable.PageContents | src/components/AttestationsTable.tsx:100-103 | Page p with page size n ≥ 1 holds the elements at positions [(p-1)·n, p·n), clipped to the list, so at most n rows. |
| AttestationsTable.TotalPages | src/components/AttestationsTable.tsx:105 | The page count is ceil(len / n): 0 for an empty list, otherwise the least count whose pages cover the list. |
| AttestationsTable.PagesArePrefix | src/components/AttestationsTable.tsx:100-103 | Pages 1..k concatenated are the first k·n elements of the list, clipped to its length. |
| AttestationsTable.PagesReassemble | src/components/AttestationsTable.tsx:100-105 | Pages 1..totalPages concatenated reproduce the whole list, with no omission or duplicate. |
| AttestationsTable.NavigationStaysInRange | src/components/AttestationsTable.tsx:195-214 | Previous never goes below page 1, and Next never goes above totalPages. From a page in range, both move at most one page and stay in range. |
| AttestationsTable.NextWithoutPages | src/components/AttestationsTable.tsx:105 | With no rows, Next moves to page 0, and page 0 is empty. |
| AttestationsTable.GetPrettyColumnName | src/components/AttestationsTable.tsx:46-48 | An unknown column's label is its own name. A schema field always has a non-empty label. |
| AttestationsTable.PrettyColumnNames | src/components/AttestationsTable.tsx:35-48 | Each of the eight schema fields gets its own fixed label, distinct from the others, and any other name is shown as itself. |
| AttestationsTable.AbbreviateId | src/components/AttestationsTable.tsx:176 | The id cell is the id's first up-to-8 characters, then "...", then its last up-to-6 characters. |
| AttestationsTable.AbbreviateLongId | src/components/AttestationsTable.tsx:176 | For ids of at least 14 characters, the cell is the first 8 characters, "...", and the last 6. |
| AttestationsTable.FormatTimestamp | src/components/AttestationsTable.tsx:51-52 | A numeric timestamp is formatted at seconds × 1000 milliseconds. It fails exactly when that instant is outside the range a JavaScript `Date` can hold. |
| AttestationsTable.JsonArray | src/components/AttestationsTable.tsx:58 | A string list's JSON text is bracketed. |
| AttestationsTable.RenderValue | src/components/AttestationsTable.tsx:50-64 | A big number shows its hex and a string shows itself. A string list shows as its JSON text, because an array is an object. Outside the timestamp column, rendering always gives text. |
| AttestationsTable.RenderValueShowsArraysAsJson | src/components/AttestationsTable.tsx:54-62 | As written, the list ["a", "b"] is shown as `["a","b"]`, where the evident intent was `a, b`. |
| AttestationsTable.RenderValueIntended | src/components/AttestationsTable.tsx:60-62 | In the corrected rendering, a string list is joined with ", ". |
| AttestationsTable.RenderValueIntendedAgreesOffArrays | src/components/AttestationsTable.tsx:50-64 | The corrected rendering agrees with the code as written on every value that is not a string list. |
| AttestationsTable.VisibleRowsFacts | src/components/AttestationsTable.tsx:85-105 | Across the whole pipeline, a page shows at most page-size rows. Each row is an input record passing the filter. The page count is ceil(filtered / size), and all pages together are a permutation of the filtered records. |
| Sorting.KeyLtTransitive | src/components/AttestationsTable.tsx:95-96 | The key order used for sorting is transitive. |
| Sorting.KeyLtTotal | src/components/AttestationsTable.tsx:95-96 | Any two keys are equal or ordered one way or the other. |
| Sorting.PrecedesTransitive | src/components/AttestationsTable.tsx:95-96 | "Comes first" in either direction is transitive. |
| Sorting.PrecedesAsymmetric | src/components/AttestationsTable.tsx:95-96 | If a comes before b, then b does not come before a. |
| Sorting.SortBy | src/components/AttestationsTable.tsx:91 | The insertion sort returns a permutation of its input. |
| Sorting.SortBySorted | src/components/AttestationsTable.tsx:91-98 | The output is sorted: no element is preceded by one that should come after it. |
| Sorting.SortByStable | src/components/AttestationsTable.tsx:91-98 | For every key, the elements with that key appear in the output in the same order as in the input. |
| Sorting.SortBySameKeys | src/components/AttestationsTable.tsx:97 | A list whose elements all have the same key is left unchanged. |
| JsText.ToLower | src/components/AttestationsTable.tsx:88 | Lower-casing keeps the length and maps each character to its lower-case form. |
| JsText.ToLowerIdempotent | src/components/AttestationsTable.tsx:88 | Lower-casing twice is lower-casing once. |
| JsText.IncludesIff | src/components/AttestationsTable.tsx:88 | `includes` holds exactly when the searched text occurs at some position. |
| JsText.StrLtTransitive | src/components/AttestationsTable.tsx:95-96 | The string `<` used by the comparator is transitive. |
| JsText.StrLtTotal | src/components/AttestationsTable.tsx:95-96 | Two strings are equal or one is `<` the other. |
| JsText.StrLtAsymmetric | src/components/AttestationsTable.tsx:95-96 | String `<` never holds both ways. |
| JsText.TrimStart | src/components/AttestationModal.tsx:25-28 | Trimming the start removes only a whitespace prefix, and leaves no leading whitespace. |
| JsText.TrimEnd | src/components/AttestationModal.tsx:25-28 | Trimming the end removes only a whitespace suffix, and leaves no trailing whitespace. |
| JsText.TrimIsEmptyIff | src/components/AttestationModal.tsx:25-28 | A string trims to empty exactly when every character is whitespace. |
| SearchBar.SearchResults | src/components/SearchBar.tsx:35-37 | The search throws, giving no result, exactly when some fetched record has no string `batchId`. |
| SearchBar.EmptyTermResets | src/components/SearchBar.tsx:41-44 | An empty term clears the results and hides the dropdown. |
| SearchBar.SearchFindsMatches | src/components/SearchBar.tsx:32-40 | A non-empty term shows the dropdown, ends loading, and yields exactly the records whose `batchId` contains the term ignoring case, in fetch order and each as many times as it was fetched. |
| SearchBar.RunSearchKeepsResultsLabelled | src/components/SearchBar.tsx:30-48 | After any search, every result still has a string `batchId` to label it with. |
| SearchBar.StageLabel | src/components/SearchBar.tsx:80 | A stage label is one of the six stage names, or empty when the stage is not an index into the table. |
| SearchBar.ResultLabel | src/components/SearchBar.tsx:80 | A result's label starts with its `batchId` followed by " - ". |
| SearchBar.ResultLabelOfStage | src/components/SearchBar.tsx:80 | For a stage index k, the label is `batchId - ` followed by the k-th stage name. |
| SearchBar.ResultLabelOfUnknownStage | src/components/SearchBar.tsx:80 | For the stage -1 of an unknown name, the label ends in " - " with nothing after it. |
| SearchBar.ShowDropdown | src/components/SearchBar.tsx:69-85 | A shown list has one label and one link target per result, and each target is that result's id. |
| SearchBar.ClickResult | src/components/SearchBar.tsx:54-58 | Clicking a result navigates to `/attestation/{id}`, hides the dropdown and clears the term. Results and loading are untouched. |
| SearchBar.ClickThenSearchClears | src/components/SearchBar.tsx:41-58 | After a click, the search that follows empties the results and nothing is shown. |
| SearchBar.MouseDown | src/components/SearchBar.tsx:18-22 | A press inside the box changes nothing. A press outside hides the dropdown and changes nothing else. |
| SearchBar.ClickOutsideHides | src/components/SearchBar.tsx:18-22 | After a press outside the box, the dropdown is not rendered. |
| AttestationModal.FormValidIff | src/components/AttestationModal.tsx:24-29 | The form is valid if and only if batch id, location, certifications and details are each non-empty after trimming. The stage plays no part. |
| AttestationModal.EmptyFormInvalid | src/components/AttestationModal.tsx:24-29 | The initial empty form is invalid. |
| AttestationModal.HandleSubmit | src/components/AttestationModal.tsx:35-43 | Submit starts a call exactly when an address is connected and the form is valid, and then marks the dialog submitting. Otherwise nothing changes. |
| AttestationModal.FinishSubmit | src/components/AttestationModal.tsx:43-51 | On success, `onSuccess` (if given) runs before `onClose`, which runs last. On failure neither runs. Either way the submitting flag is cleared. |
| AttestationModal.SubmitCycle | src/components/AttestationModal.tsx:35-51 | A started submission is pending until it settles. Afterwards it is no longer submitting, the form is kept, and callbacks ran exactly on success. |
| AttestationModal.StageOptions | src/components/AttestationModal.tsx:86-88 | Option i has value i and the i-th stage name as its label. |
| AttestationModal.StageOptionsMatchVocabulary | src/components/AttestationModal.tsx:86-88 | There are six options, labelled Farm…Retail as in the decoder's stage table, and each option's value decodes to itself. |
| AttestationModal.Render | src/components/AttestationModal.tsx:54-159 | A closed dialog renders nothing. Submit is disabled while submitting or when the form is invalid. Inputs are disabled, and the overlay shows, exactly while submitting. |
| AttestationModal.PendingDisablesSubmit | src/components/AttestationModal.tsx:146-151 | Right after a valid submit, the button is disabled and reads "Submitting...". |
| AttestationModal.ModalCallArgs | src/components/AttestationModal.tsx:43 | The dialog passes certifications as the typed string, and passes neither a previous attestation id nor a timestamp. |
| AttestationModal.ModalCallNeverEncodes | src/components/AttestationModal.tsx:43 | No submission from the dialog can be encoded against the schema. |
| AttestationModal.IntendedCallArgs | src/api/attestations.ts:71-80 | The corrected call passes the certifications as a list of comma-free items. |
| AttestationModal.IntendedCallEncodes | src/api/attestations.ts:71-99 | With a wallet address and a stage from the options, the corrected call encodes, and decoding gives every argument back. Both hold under the `IndexedValue` assumption. |
| RegisterAttestations.RandomIndex | scripts/registerAttestations.ts:91 | `Math.floor(r · n)` is a valid index into a non-empty list. |
| RegisterAttestations.GetRandomElement | scripts/registerAttestations.ts:90-92 | The pick is undefined exactly for an empty list; otherwise it is the element at the drawn index. |
| RegisterAttestations.GetRandomCity | scripts/registerAttestations.ts:94-101 | A country with no city list, or an empty one, is its own city. Otherwise the city is from that country's list. |
| RegisterAttestations.GetRandomCountryForStage | scripts/registerAttestations.ts:214-233 | The stage lookup throws exactly outside stages 0–5. For stages 0–2 a production country is kept, otherwise one is picked. Stage 3 picks an import country other than the current one. Stages 4 and 5 pick from the roasting and retail lists. |
| RegisterAttestations.ImportAlternativesExist | scripts/registerAttestations.ts:224-227 | Removing the current country from the import list never leaves it empty. |
| RegisterAttestations.SelectCertifications | scripts/registerAttestations.ts:251 | The certifications are a prefix of the key list of length 1 to 3. |
| RegisterAttestations.StageMultiplier | scripts/registerAttestations.ts:353 | The multiplier is min(stage + 1, 3), which is 1, 2 or 3 for any stage. |
| RegisterAttestations.RandomInterval | scripts/registerAttestations.ts:350-355 | The wait is at least 3000 ms and below 63000 ms. |
| RegisterAttestations.IntervalShrinksWithStage | scripts/registerAttestations.ts:352-354 | For the same draw, a later stage never waits longer than an earlier one. |
| RegisterAttestations.InitBatch | scripts/registerAttestations.ts:365-377 | A new batch starts at stage 0 with the zero hash, in a production country and in one of that country's cities. |
| RegisterAttestations.LocationText | scripts/registerAttestations.ts:249 | The location is the city, then ", ", then the country. |
| RegisterAttestations.ScriptCallArgs | scripts/registerAttestations.ts:247-271 | The script encodes the batch's stage and previous id, and a list of 1 to 3 certifications. |
| RegisterAttestations.ScriptCallEncodes | scripts/registerAttestations.ts:262-271 | For a wallet address, a 32-byte previous id and a stage in range, the script's field list encodes, and decoding gives every argument back. Both hold under the `IndexedValue` assumption. |
| RegisterAttestations.FirstCallEncodes | scripts/registerAttestations.ts:365-377 | A freshly initialised batch's first attestation always encodes. |
| RegisterAttestations.EligibleIndices | scripts/registerAttestations.ts:391 | The eligible positions are exactly the batches whose stage is below 6. |
| RegisterAttestations.UpdateBatchAsWritten | scripts/registerAttestations.ts:310-348 | As written, an update returns the new uid and stage + 1 for stages 0–4. It throws for a stage-5 batch, because the next-stage lookup indexes `stages[6]`. |
| RegisterAttestations.UpdateBatch | scripts/registerAttestations.ts:310-348 | In the corrected update, any stage 0–5 gives the new uid and stage + 1. The next stage's country is picked below 6, and the location is kept on reaching 6. |
| RegisterAttestations.UpdateBatchAgreesBelowRetail | scripts/registerAttestations.ts:310-348 | Below Retail, the corrected and as-written updates agree. |
| RegisterAttestations.Apply | scripts/registerAttestations.ts:405-408 | Applying an update sets the stage and makes the new uid the previous attestation id. |
| RegisterAttestations.SimulationPass | scripts/registerAttestations.ts:390-425 | One loop iteration picks an eligible batch exactly when one exists. It changes no other batch, and an attestation is created only when a batch was picked. |
| RegisterAttestations.PassAdvancesPickedBatch | scripts/registerAttestations.ts:404-408 | With the corrected update, the picked batch moves one stage on and links to the new uid, and all stages stay within 0–6. |
| RegisterAttestations.RemainingNonNegative | scripts/registerAttestations.ts:391-396 | The stages left across all batches are never negative. They are zero exactly when no batch is eligible. |
| RegisterAttestations.IntendedPassMakesProgress | scripts/registerAttestations.ts:390-408 | With the corrected update, every iteration with an eligible batch lowers the stages left by one, so every batch completes. |
| RegisterAttestations.RetailBatchNeverCompletes | scripts/registerAttestations.ts:342 | As written, picking a stage-5 batch creates an attestation and then throws. The batch stays at stage 5 and remains eligible forever. |
| RegisterAttestations.AsWrittenStagesStayBelowSix | scripts/registerAttestations.ts:390-425 | As written, no batch ever reaches stage 6, so some batch stays eligible on every iteration. |

## Left out

- The GraphQL transport, the attestation SDK's encoding and transaction submission, `getAttestation` and the wallet connection are foreign calls. A request's outcome is an argument, and encoding is modelled only as "every value fits its ABI type".
- AttestationsApi.IndexedValue: the indexer is assumed to serve `string`, `uint8`, `string[]`, `address` and `bytes32` values back verbatim. Its ABI decoder, outside this code, may change the letter case of an address (checksum case) or a `bytes32` (lower case), so `Conforms` accepts hex that comes back in another case.
- AttestationsApi.EncodeDecodeRoundTrip: proves the hex round trip of the timestamp and the decoder's field dispatch. The verbatim return of the other seven values is the `IndexedValue` assumption, not a proof.
- AttestationsApi.RoundTripField: rests on the same `IndexedValue` assumption, one field at a time.
- AttestationsApi.FetchTotalAttestations: a numeric `length` is a non-negative integer. An object with a negative or fractional `length` is not modelled; a GraphQL list field cannot produce one.
- `JSON.parse` is an arbitrary partial function `parse`. `None` means that parsing, or iterating the parsed value, throws.
- Logging (`console.*`) has no effect on any result and is not modelled.
- The "latest record per batch" reduction is not implemented by any of the modelled files, so it is not modelled.
- Date handling is left out:
  - `date-fns` formatting is a parameter `formatDate` of `AttestationsTable.FormatTimestamp`;
  - `Date.now()` is the argument `now`;
  - `getSeasonalHarvestDate`, `formatDate`, `addDays` and the dates carried by the script's batches are library Date objects.
- Floating point: `Math.random()` draws are exact reals in [0, 1), and the script's interval is an exact real.
- `generateDetails`, `generateBatchId`, `getRandomBatchSize` and writing the attestation details to a file are left out. They are free text, identifiers, or I/O that no rule depends on. The script's `details` is an argument.
- The simulation's time loop and its `duration`, the waiting itself, and the 5-second pause when no batch is eligible are timers. One iteration is modelled (`RegisterAttestations.SimulationPass`).
- The SearchBar debounce timer and the ordering of overlapping async searches are concurrency and timers. A search is modelled as completing for the term it started with.
- React rendering and animation (framer-motion) are left out. Only what a view shows or disables is modelled.
- Object-prototype keys such as `constructor` used as column names are treated like any other unknown column, not as inherited properties.
- JsText.ToLower: lower-cases ASCII letters only; the full Unicode case mapping of `toLowerCase` is not modelled.
- JsText.StrLt: compares `char` values, which agrees with JavaScript's UTF-16 code-unit order on the Basic Multilingual Plane only.
- JsText.IntToString: produces the decimal form and does not model the exponent form `String(n)` uses from 1e21 on.
- AttestationsApi.Conforms: numbers are exact integers, so timestamps above 2^53, where JavaScript numbers lose precision, are not modelled.
- AttestationsTable.PageContents: requires a page size of at least 1. The page size comes only from the fixed options 5, 10, 25 and 50.
- AttestationsTable.SortRowsOrdered: the ordering is stated for columns whose cells are all numbers, all strings or absent. JavaScript's coercing `<` on mixed or array-valued columns is not a consistent order; `SortRows` still returns a permutation there.
- AttestationModal.FinishSubmit: `onSuccess` or `onClose` throwing is not modelled. In the source such a throw would skip `onClose` and land in the same catch.
- The city names in `scripts/registerAttestations.ts:49-69` appear with mis-encoded accents ("Bogot√°"). The model uses the intended names ("Bogotá").

## Findings

| source | as written | input that shows it | evidently intended | confidence | as-written member | corrected member |
|---|---|---|---|---|---|---|
| src/components/AttestationModal.tsx:43 | The dialog calls `createAttestation` with six arguments. Certifications is the typed string, and `previousAttestationId` and `timestamp` are missing, although the signature at src/api/attestations.ts:71-80 expects a `string[]` and both values. | Any valid form and address, e.g. certifications "Organic, Fair Trade": the `timestamp` item has no value, so encoding fails. | Split the certifications on commas and trim them. Pass the zero hash for a first attestation and the current time in seconds. | high, not executed | AttestationModal.ModalCallNeverEncodes | AttestationModal.IntendedCallEncodes |
| src/api/attestations.ts:156 | `fetchTotalAttestations` returns the raw record count, while `fetchAttestations` (lines 43-60) drops records with an empty or unparseable payload. | One raw record with a null `decodedDataJson`: the count is 1 and the fetch returns []. | Count the records the listing actually shows. | medium, not executed | AttestationsApi.TotalCountsDroppedRecords | AttestationsApi.FetchTotalDecoded |
| scripts/registerAttestations.ts:342 | After attesting a stage-5 batch, `updateBatch` asks for the country of stage 6. `stages[6]` is undefined, so `.toLowerCase()` at line 215 throws, and the catch at 422-424 leaves the batch unchanged. | A batch at stage 5 (Retail) picked by the loop: an attestation is created, then the update throws. The batch stays at stage 5 and is picked again. | A stage-5 update completes the batch (stage 6) and keeps its location. | high, not executed | RegisterAttestations.RetailBatchNeverCompletes | RegisterAttestations.IntendedPassMakesProgress |
| src/components/AttestationsTable.tsx:54-62 | A certifications array is an object, so it is rendered by `JSON.stringify`. The `Array.isArray` branch that joins with ", " can never run. | certifications ["a", "b"] renders as `["a","b"]`. | Join the items with ", ". | medium, not executed | AttestationsTable.RenderValueShowsArraysAsJson | AttestationsTable.RenderValueIntended |
