# it-facts-api: a verified model of the `/api/facts` route

The service answers `GET /api/facts?quant=<n>&tag=<a,b,...>` with a random
selection of facts. A request carries an `x-api-key` header and passes through
four stages, in this order:

1. `authenticateAPIKey` finds the first user that owns the key and counts one
   use of that key. An unknown key gets 401.
2. `verifyQuota` grants the request when the owner's `usedQuota` is below
   `fixedQuota`, and then adds one to `usedQuota`. Otherwise the answer is 403.
   A failed read gets 500.
3. `validateInput` checks that `quant` is a string of ASCII digits and that
   `tag`, when given, uses only letters, digits, `,` and `-`. A failure gets 400.
4. The handler splits `tag` on `,`. It answers 400 "Invalid tag provided."
   when a requested tag appears in no fact. Otherwise it keeps, in order, the
   facts that carry every requested tag. It then returns the first `quant`
   elements of a Fisher–Yates shuffle of that list.

The model is split into these modules:

- `Validation` (validation.dfy): the `validateInput` checks as character-class
  predicates, and `parseInt` on a digit string as `DecimalValue`.
- `TagFilter` (tag_filter.dfy): the `Fact` record, `split(',')`, the
  tag-in-use check and the conjunctive, order-preserving filter.
- `Sampler` (sampler.dfy): `getRandomElements` as a method over an array. It
  shuffles a fresh copy in place with the source's swap loop. The random index
  of each step comes from an oracle, `rolls`, whose draw for
  `currentIndex == c` lies in `[0, c)`.
- `Users` (users.dfy): the `Users` table of the database as an in-memory
  class `UserStore`. Its two methods update the table. Pure functions
  `Authenticate` and `CheckQuota` specify them.
- `Api` (api.dfy): the whole route, as the function `Respond` and the method
  `HandleFactsRequest`, with lemmas about the order of the stages.
- `Sequences` (sequences.dfy): order-preserving subsequences, absence of
  repeats and `Min`, shared by the other modules.
- `Wrappers` (wrappers.dfy): `Option`, and `OrZero` for JavaScript's `x || 0`.

Some behaviours of the code are worth stating:

- The route runs authentication and the quota gate before `validateInput`
  (app.js:43). So `quant=abc` consumes a unit of quota and is rejected only
  afterwards, with 400.
- `quant` must match `^\d+$`, so `0` is accepted and gives an empty list. The
  error text says "positive integer" anyway. The sampler has no error path for
  the quantity.
- The requested tags are the list `tag.split(',')`, not a set. It may repeat a
  tag. It may also hold empty pieces (`a,,b`), and the empty tag must then be
  used by some fact.
- A missing `x-api-key` header is looked up as the property name
  `"undefined"` (`PropertyKey`), because that is what `APIKeys[undefined]` does.
- `users[key].APIKeys[apiKey]` (app.js:86) is also truthy for names every
  JavaScript object inherits, such as `constructor`. The model keeps that
  lookup as `FirstOwnerAsWritten` and shows the bypass it allows (see
  "## Findings"). The route itself (`Respond`) uses the corrected lookup
  `FirstOwner`, which counts only the keys a user holds.

## Model

| member | source | states |
|---|---|---|
| `Validation.ValidateInput` | app.js:17-31 | passes iff `quant` is present and a non-empty string of ASCII digits and `tag` is absent, empty, or a non-empty string over `[A-Za-z0-9,-]`; the quant error is reported exactly when `quant` is bad, otherwise the tag error |
| `Validation.Decimal` | app.js:21 | the decimal numeral of a natural number passes `/^\d+$/` and has no leading zero |
| `Validation.DecimalValue` | app.js:48 | `parseInt` of an accepted digit string is 0 exactly when every digit is `0`, so `quant=000` asks for no facts |
| `Validation.DecimalRoundTrip` | app.js:48 | `parseInt` of the decimal numeral of `n` is `n`: every natural number is an accepted `quant` that asks for exactly that many facts |
| `TagFilter.Split` | app.js:54 | `split(',')` yields at least one piece and no piece contains the separator |
| `TagFilter.JoinSplit` | app.js:54 | joining the pieces of `split` with the separator gives back the string |
| `TagFilter.SplitJoin` | app.js:54 | splitting a join of separator-free pieces gives back the pieces (the other direction of the round trip) |
| `TagFilter.TagPiecesAreWords` | app.js:26 | each piece of a tag that passed the syntax check consists of letters, digits and `-` only |
| `TagFilter.HasAllTags` | app.js:65-67 | `tags.every(tag => fact.tags.includes(tag))` holds iff the set of requested tags is a subset of the fact's tags; it holds vacuously for no tags |
| `TagFilter.TagInUse` | app.js:58 | `facts.some(fact => fact.tags.includes(tag))` holds iff filtering by that single tag keeps some fact; it never holds for an empty collection |
| `TagFilter.AllTagsInUse` | app.js:57-59 | the `isValidTag` check holds vacuously for no tags, and when it holds for some tag the collection is not empty |
| `TagFilter.FilterByTags` | app.js:65-67 | the filter keeps only facts carrying every requested tag, keeps each such fact as often as it occurs and drops every other fact, and is a subsequence of the input (order preserved) |
| `TagFilter.FilterUnique` | app.js:65-67 | any subsequence of the facts with those multiplicities is the filter's result, so the filter's properties determine it exactly |
| `TagFilter.FilterNoTags` | app.js:51-53 | with no requested tag the collection is returned unchanged |
| `TagFilter.FilterEmptyIff` | app.js:65-67 | the filtered list is empty iff no single fact carries every requested tag |
| `TagFilter.UnusedTagFiltersAll` | app.js:57-67 | a requested tag used by no fact would leave nothing after filtering anyway; the tag check turns that empty answer into an error |
| `TagFilter.SelectFacts` | app.js:51-68 | with a falsy `tag` every fact is kept; otherwise the result is "invalid tag" iff some comma-separated piece is used by no fact, and else exactly the facts with all pieces, in order |
| `Sampler.Swap` | app.js:139-141 | the three assignments through `temporaryValue` exchange positions `i` and `j` and leave every other position alone |
| `Sampler.SwapPermutes` | app.js:139-141 | a swap keeps the multiset of elements |
| `Sampler.ShuffleDown` | app.js:135-142 | running the loop down from `currentIndex == c` keeps the length and never touches positions `c` and above |
| `Sampler.Shuffled` | app.js:131-142 | the whole shuffle of the copy has the input's length and is a permutation of it |
| `Sampler.Sample` | app.js:144 | `shuffled.slice(0, numElements)` has `min(numElements, length)` elements and is a sub-multiset of the input |
| `Sampler.ShuffleDownPermutes` | app.js:131-142 | the working copy stays a permutation of the input throughout the shuffle |
| `Sampler.ShuffleDownDistinct` | app.js:135-142 | shuffling a duplicate-free sequence keeps it duplicate-free |
| `Sampler.ShuffleDownAt` | app.js:135-142 | shuffling the elements is the same as reading the input through the shuffled positions |
| `Sampler.SampleFromDistinctPositions` | app.js:130-145 | the i-th sampled element is the input's element at position `p[i]`, and the positions `p` used by the sample are distinct and in range |
| `Sampler.SampleProperties` | app.js:144 | the sample has `min(n, |input|)` elements, is a sub-multiset of the input, and has no repeats when the input has none |
| `Sampler.GetRandomElements` | app.js:130-145 | the method's result is the specified sample of the caller's array: length `min(numElements, length)`, a sub-multiset, duplicate-free for a duplicate-free array; the loop keeps the copy a permutation, each roll indexes below `currentIndex`, and the caller's array is not modified |
| `Users.PropertyKey` | app.js:80-86 | a present header is the key looked up; a missing one is looked up as "undefined" |
| `Users.FirstOwner` | app.js:86 | the corrected lookup: finds the first user in table order holding the key as one of its own, or reports that no user holds it |
| `Users.FirstOwnerAsWritten` | app.js:86 | the lookup as written: finds the first user for whom `APIKeys[apiKey]` is truthy, that is, who holds the key or for whom it names an inherited property; none only when no user qualifies |
| `Users.IndexOfId` | app.js:95 | finds the user `userRef.child(userId)` names, or reports that none has that id |
| `Users.FixedQuotaOf` | app.js:107-112 | the value read is the stored `fixedQuota` of the user with that id, 0 when unset or when no user has that id |
| `Users.UsedQuotaOf` | app.js:108-113 | the value read is the stored `usedQuota` of the user with that id, 0 when unset or when no user has that id |
| `Users.ReplaceUser` | app.js:92-93 | writing below one user's record keeps ids distinct and every user at its position |
| `Users.BumpUsage` | app.js:92-93 | the key's `usage` becomes `(usage or 0) + 1`; the user's id, quotas, key set and every other key record are unchanged |
| `Users.BumpUsageAsWritten` | app.js:92-93 | the usage write as it happens after the as-written lookup: a held key's `usage` goes up by one; a name the user does not hold gets a new record with `usage` 1; nothing else changes |
| `Users.ConsumeQuota` | app.js:117 | `usedQuota` becomes `(usedQuota or 0) + 1`; id, keys and `fixedQuota` are unchanged |
| `Users.Authenticate` | app.js:79-101 | with the corrected lookup: 401 iff no user holds the key, and then the table is unchanged; otherwise the request binds to the first owner, that key's usage goes up by one, and no other user, key record, quota or id changes |
| `Users.AuthenticateAsWritten` | app.js:79-101 | as written: 401 iff no user holds the key and the key is not an inherited name (or the table is empty), and then the table is unchanged; otherwise the request binds to the first user whose lookup is truthy and that user's record gets the as-written usage write |
| `Users.InheritedNameBypass` | app.js:86-96 | with a non-empty table, an inherited name such as `constructor` that no user holds is a 401 under the corrected lookup, but as written it authenticates as the first user and creates a usage record of 1 for that name |
| `Users.CheckQuota` | app.js:104-127 | a failed read gives 500 with no change; otherwise the request is granted iff `usedQuota < fixedQuota` (missing as 0); a grant adds exactly one to that user's `usedQuota` and changes nothing else; a refusal changes nothing |
| `Users.SequentialGrants` | app.js:112-122 | of `n` requests served one after another, exactly `min(n, fixedQuota - usedQuota)` are granted (none when the quota is used up), and `usedQuota` rises by that number, so it never passes `fixedQuota` |
| `Users.UserStore.constructor` | app.js:83-85 | the store holds the given well-formed table |
| `Users.UserStore.AuthenticateApiKey` | app.js:79-101 | the store's new table and the returned outcome are those of `Authenticate` |
| `Users.UserStore.VerifyQuota` | app.js:104-127 | the store's new table and the returned outcome are those of `CheckQuota` |
| `Api.Respond` | app.js:43 | the route runs authentication, the quota gate, then the handler, and leaves a well-formed table of the same size |
| `Api.GateAndServe` | app.js:43 | after authentication: 403 or 500 from the gate, or the handler's answer; the table stays well formed |
| `Api.Serve` | app.js:43-76 | the part after the gate answers only 200 or 400 |
| `Api.UnknownKeyRejected` | app.js:84-99 | with the corrected lookup, the route answers 401 iff no user holds the key, and then with the table unchanged |
| `Api.QuotaReadsUnaffectedByAuth` | app.js:93-113 | counting a key use does not change what `verifyQuota` reads for any user |
| `Api.GateRefuses` | app.js:110-122 | once a user id is bound, the gate answers 403 iff that user's `usedQuota >= fixedQuota`, and a 403 leaves the table as it was |
| `Api.QuotaGate` | app.js:110-122 | for a known key the route answers 403 iff the owner's `usedQuota >= fixedQuota`, and then only the key's usage has changed |
| `Api.QuotaSpentBeforeValidation` | app.js:43 | a granted request raises the owner's `usedQuota` by one even when `validateInput` then rejects it with 400 |
| `Api.GrantedRequestServed` | app.js:43 | a request that passes both gates gets exactly the handler's answer, with the table left by the two counter updates |
| `Api.UnusedTagRejected` | app.js:57-62 | past the gate, a syntactically valid tag list with a tag no fact uses is answered 400 "Invalid tag provided." |
| `Api.SuccessfulResponse` | app.js:65-72 | a 200 holds `min(quant, |selected|)` facts, a sub-multiset of the collection, each carrying every requested tag, and no repeats when the collection has none |
| `Api.LastUnitOfQuota` | app.js:112-122 | with `fixedQuota` 5 and `usedQuota` 4 one request passes the gate and moves `usedQuota` to 5; the next gets 403 |
| `Api.MalformedQuantRejected` | app.js:21-23 | `quant=abc` is answered 400 with the quant message |
| `Api.DisjointTagsSelectNothing` | app.js:57-67 | tags "a" and "b" each used by some fact but by no common fact select nothing and raise no tag error |
| `Api.DisjointTagsInUse` | app.js:57-59 | with facts tagged "a" and "b" separately, both tags pass the `isValidTag` check |
| `Api.DisjointTagsNoCommonFact` | app.js:65-67 | with those facts, filtering by both tags keeps nothing |
| `Api.TagsWithoutCommonFact` | app.js:57-72 | for that case the handler answers 200 with an empty list |
| `Api.HandleFactsRequest` | app.js:43-76 | the imperative route over the store returns the response `Respond` specifies and leaves the table it specifies |

## Findings

| source | as written | input that shows it | evidently intended | confidence | as-written member | corrected member |
|---|---|---|---|---|---|---|
| app.js:86 | `users[key].APIKeys[apiKey]` is truthy for inherited property names, so `find` picks the first user | header `x-api-key: constructor` with any non-empty `Users` table: the request authenticates as the first user and `APIKeys/constructor/usage` is created with 1 | only keys a user holds authenticate; any other key gets 401 | high, not executed | `Users.InheritedNameBypass` | `Users.Authenticate` |

## Left out

- Express set-up, routing, JSON rendering and `app.listen` (app.js:1-3, 40, 148-150): only the status and the `error` text or fact list are modelled.
- The `express-rate-limit` middleware (app.js:34-40): a foreign library with a time window; the 429 answer is not modelled.
- Firebase initialisation and its callbacks, `Promise.all` and transaction retries (app.js:5-11, 83-84, 110, 117): reads and writes are sequential operations on an in-memory table, and the fire-and-forget `usage` transaction completes before the next stage.
- The race between concurrent requests that both read `usedQuota` before either increment lands: the model is sequential, so it shows no overshoot (`Users.SequentialGrants`); the bounded overshoot under concurrency is not captured.
- A failing read inside `authenticateAPIKey` has no error handler in the source and leaves the request unanswered; the model has no outcome for it. The failure of `verifyQuota`'s reads is the boolean `readsSucceed`.
- Users.Authenticate: requires a well-formed table (non-empty, distinct user ids; every user with an `APIKeys` record holding at least one key, since the database stores no empty nodes). A user without `APIKeys` (a `TypeError` in the callback) and an empty user id (falsy in `if (userId)`) are not modelled. An empty table, where `snapshot.val()` is null and `Object.keys` throws, is answered 401 in the model; the same holds for `Users.AuthenticateAsWritten`.
- Store counters are integers or missing; non-numeric values stored in `usage`, `fixedQuota` or `usedQuota` are not modelled.
- Query parameters are optional strings; a repeated parameter, which Express delivers as an array, is not modelled.
- `Math.random` and the uniformity of the shuffle (app.js:136): the draws come from the `rolls` oracle, so only the bounds of each draw, not its distribution, are modelled.
- Loading `facts.json` (app.js:14): the fact collection is a parameter.
- `parseInt` on digit strings too long for a double (app.js:48): `quant` is read as an unbounded natural number.
