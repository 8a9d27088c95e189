# hoverfly-client-node: simulation arithmetic and response-body decoding

This project models the logic of a Node.js client library for the Hoverfly HTTP
mocking service that works on values and does no I/O:

- A *simulation* is an ordered list of pairs. Each pair joins a request matcher with a
  canned response. A simulation also carries global delay settings and export metadata.
- *Subtracting* simulation `R` from simulation `L` keeps the pairs of `L` whose
  request-matcher signature occurs nowhere in `R`.
- *Merging* `R` into `L` is that subtraction followed by all of `R`'s pairs. So `R`
  overwrites the pairs of `L` it matches.
- Both operations build a fresh simulation with no global delays and fixed metadata.
- A *response body* is decoded from base64 and brotli only when the response says its
  body is encoded and its `Content-Encoding` list holds `"br"`.

Modules:

- `Request` (`request.dfy`): the request matcher, held as the JSON object the program
  holds, with its declared type as a predicate (`Conforms`).
- `Response` (`response.dfy`): the response and the body decoder.
- `Arrays` (`arrays.dfy`): `Array.prototype.filter`, the only array operation the
  arithmetic needs that is not built into Dafny's sequences.
- `Simulations` (`simulation.dfy`): simulations, subtraction and merging.
- `Wrappers` (`wrappers.dfy`): `Option`, `Result`, and `Field`, a TypeScript member
  that may be missing, `null`, or set.

The signature of a request matcher is the SHA-256 digest of its JSON text. That text
depends on the order of the object's members and on every member, including members the
type does not declare: `JSON.parse` keeps them. So a request matcher is modelled as a
JSON object whose members keep their order and may be anything, and a matcher inside it
is a JSON value too. The model does not compute the signature. Every operation takes the
signature function as a parameter (`Request.Signature`), so every property holds for any
function of the matcher's JSON object. Nothing assumes that equal signatures mean equal
matchers.

The base64 decoder, the brotli decompressor and the UTF-8 reader are likewise
parameters (`Response.Codecs`). Brotli decompression can fail on a corrupt stream, where
the library throws. The model returns `Failure(CorruptBrotliStream)` in that case.

The decoder has no `gzip` branch and no branch that only undoes the base64: any encoded
body whose `Content-Encoding` list lacks `"br"` comes back still base64 encoded
(`src/simulation/response.ts:14-17`).

## Model

| member | source | states |
|---|---|---|
| `Arrays.Filter` | src/simulation.ts:67 | `filter` keeps exactly the elements that satisfy the callback (membership in both directions), and never lengthens the list |
| `Arrays.FilterSelects` | src/simulation.ts:67 | `filter` selects, in increasing order, exactly the positions whose element satisfies the callback: the result is a subsequence of the input, nothing invented, nothing taken twice |
| `Simulations.BuildSimulation` | src/simulation.ts:35-47 | the built simulation holds exactly the given pairs, no delays, no log-normal delays, and schema `v5.2`, service `v1.9.0`, export time `2024-10-31T08:40:30Z` |
| `Simulations.Signatures` | src/simulation.ts:66 | the signature list of `right` has one entry per pair: the signature of that pair's matcher |
| `Simulations.SignatureOccurs` | src/simulation.ts:66-67 | a signature is among a list's signatures exactly when some pair of the list has it |
| `Simulations.SubtractPairs` | src/simulation.ts:62-68 | a pair is in the result exactly when it is in `left` and its signature is not among `right`'s signatures |
| `Simulations.SubtractSelectsUnmatched` | src/simulation.ts:66-67 | the subtraction is the subsequence of `left` made of exactly the positions whose signature does not occur in `right`, in their original order |
| `Simulations.SubtractNothing` | src/simulation.ts:66-67 | subtracting an empty list returns `left` unchanged |
| `Simulations.SubtractSelf` | src/simulation.ts:66-67 | subtracting a list from itself returns the empty list |
| `Simulations.SubtractConcat` | src/simulation.ts:67 | subtracting from a concatenation is concatenating the two subtractions |
| `Simulations.SubtractIdempotent` | src/simulation.ts:66-67 | subtracting the same pairs a second time removes nothing more |
| `Simulations.SubtractSignatureCount` | src/simulation.ts:66-67 | after subtraction a signature used by `right` has no pairs left, and any other signature keeps every pair it had in `left` |
| `Simulations.MergeSimulations` | src/simulation.ts:74-77 | the merged pairs are the subtraction of `right` from `left` followed by all of `right`; the result is a freshly built simulation, so both inputs' delays and metadata are dropped |
| `Simulations.SubtractSimulations` | src/simulation.ts:79-82 | the result's pairs are the subtraction of `right` from `left`; the result is a freshly built simulation |
| `Simulations.MergeOverwrites` | src/simulation.ts:70-77 | the merge ends with `right`'s pairs, in order and with their duplicates; every pair before them comes from `left` and has a signature `right` does not use; every pair of `left` with such a signature is among them |
| `Simulations.MergeSignatureCount` | src/simulation.ts:74-77 | in the merge, a signature used by `right` has exactly `right`'s count of pairs, and any other signature has exactly `left`'s count |
| `Simulations.MergeReplacesMatch` | src/simulation.ts:70-77 | when `right` has a single pair for a signature, the merge has a single pair for it, and that pair is `right`'s, with `right`'s response |
| `Simulations.MergeDisjoint` | src/simulation.ts:62-77 | when no pair of `left` shares a signature with `right`, the merge is all of `left` followed by all of `right` |
| `Request.ReorderedMembersDiffer` | src/simulation/request.ts:8-16 | two matchers of the declared type that differ only in member order are different values, so a signature may separate them |
| `Simulations.MergeEmptyRight` | src/simulation.ts:75-76 | merging a simulation with no pairs keeps `left`'s pairs |
| `Simulations.MergeIntoEmpty` | src/simulation.ts:75-76 | merging into a simulation with no pairs gives `right`'s pairs |
| `Simulations.MergeSelf` | src/simulation.ts:75-76 | merging a simulation with itself gives back its pairs |
| `Simulations.MergeIdempotent` | src/simulation.ts:74-77 | merging the same simulation twice equals merging it once |
| `Simulations.OnlyPairsMatter` | src/simulation.ts:74-82 | merge and subtract results depend on the inputs' pair lists only, never on their delays or metadata |
| `Response.DecodeResponseBody` | src/simulation/response.ts:13-18 | a body that is not encoded, or whose headers are missing, `null`, lack `Content-Encoding` or do not list `"br"`, is returned as stored; otherwise the result is the UTF-8 reading of the brotli decompression of the base64 decoding, or an error when decompression fails; an error happens only on that branch |
| `Response.BrotliRoundTrip` | src/simulation/response.ts:14-15 | when the codecs invert their encoders, a UTF-8, brotli and base64 encoded text stored with `encodedBody` and `"br"` decodes back to the text |
| `Response.OtherEncodingsStayEncoded` | src/simulation/response.ts:14-17 | an encoded body whose `Content-Encoding` list lacks `"br"` (for example `gzip`) is returned unchanged, still base64 |
| `Response.BrotliIsMatchedAsElement` | src/simulation/response.ts:14 | `"br"` is matched as a whole list element: the single value `"gzip, br"` does not select brotli, the two values `"gzip"` and `"br"` do |

`DecodeResponseBody` is a function of immutable values, so it cannot change the
response it is given.

`SignatureCount`, `SignatureCountZero`, `SignatureCountConcat` and `SingleSignature` in
`Simulations` are specification helpers: they count the pairs carrying a signature, which
the program never does, so that `SubtractSignatureCount`, `MergeSignatureCount` and
`MergeReplacesMatch` can be stated and proved.

## Left out

- `src/client.ts`: every method is an HTTP round trip to the service. `appendSimulation`
  and `withSimulation` (`src/client.ts:108-120`) read the current simulation, merge, and
  upload, without locking. The remote state, the race between writers, and the
  restoration that `withSimulation` skips when its callback throws are not modelled.
  `MergeIdempotent` says what appending the same simulation twice yields only if the
  service hands the uploaded matchers back with the same JSON text.
- `buildSimulationFromJSONString`, `buildSimulationFromFile`, `saveSimulationToFile`
  (`src/simulation.ts:49-60`): file I/O and JSON parsing and printing are foreign calls.
- `requestSignature` (`src/simulation/request.ts:18-22`): SHA-256 and `JSON.stringify`
  are foreign. The model takes the signature function as a parameter instead.
- Base64 decoding, brotli decompression and UTF-8 decoding
  (`src/simulation/response.ts:15`): foreign library calls, taken as parameters.
- JavaScript numbers (`status`, the delay settings) are modelled as unbounded integers.
  They are only carried along, never computed with.
- The headers and `transitionsState` of a response are modelled as maps: only key
  lookup is performed on them, so their key order plays no part. Members of a response
  or of a pair that the types do not declare are not modelled either: the program passes
  them through untouched and never hashes or reads them.
- Sharing: `buildSimulation` stores the caller's array itself, and `filter` and `concat`
  copy only the arrays, so a merged or subtracted simulation shares its pair objects with
  the inputs. The model works on values and does not show this. The library never
  changes a pair, so no caller can observe the difference through it.
- `src/mode.ts` and `src/journal.ts` are type declarations with no behaviour.
  The tests and the test configuration run against a live server.
