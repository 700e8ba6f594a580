# Formal model of the PlanWeave protocol core

A Dafny 4.11 project that models the stateful and recursive parts of PlanWeave and proves what they
promise. `dafny verify dfyconfig.toml` checks everything.

| module | what it models |
|---|---|
| TokenStore, TokenFile, FileStoreProtocol, FileStoreInvariant, FileStoreTheorems, FileStoreRecovery, TokenStores | the memory and file OAuth token stores: operations on values, the file format, the asynchronous load and write queue as a state machine over its awaits, its linearizability, crash behaviour and recovery from failures, and the stores as classes |
| OAuthScope, OAuthAuthorization, OAuthServer, OAuthInvariant, OAuthSteps, OAuthTheorems, OAuthHistory, OAuthEntries, OAuthOutcomes, OAuthAnswers, OAuthFailures, OAuthOverFile, OAuthProvider | the authorization server: handlers as events between awaits, interleaved freely, with a history of grants; provenance, single use, answers, bounds and failed writes over every run, restarts included; the server over the file store, crashes included, and its refinement of the server over an atomic one (sections 4.1.2, 4.1.3 and 6 of RFC 6749, section 4.6 of RFC 7636) |
| JsonText, KeyOrder, CanonicalJson, CanonicalPrinter, Decimal, JsonBytes | JSON strings on UTF-16 code units, canonical JSON (sections 3.2.2 and 3.2.3 of RFC 8785), the parser that inverts it, the envelope digest, and how many bytes JSON texts take |
| Utf8, Base64Url, StrictSchema, SetupHandoff | the setup handoff codec (sections 4 and 5 of RFC 4648) |
| RedactionKeys, TreeRedaction, ObjectGraph, GraphRedaction | structured redaction of object graphs |
| ContentVersion, ContentTransfer, ContentTransferLimit, ConversationBudget, Timestamps | canonical content versions and the byte budgets of their transfer and of conversation events |
| MediaType, RunRecordIdentity | media-type canonicalisation (sections 5.6.6 and 8.3.1 of RFC 9110) and run record ids |
| CursorChains, CanvasExports | journal delta and event batch validators, and batched canvas reads |

Results that go against the code's comments or expectations, each with an input and the exact
condition:

- A handoff text that starts with a byte order mark does not survive the base64url codec
  (Base64Url.MarkIsLost, Base64Url.RoundTrip). Handoffs themselves are JSON objects and do survive.
- The minimum conversation budget is computed with the status "failed"; "running", "completed" and
  "cancelled" are longer and can exceed it (ConversationBudget.MinimumMissesCancellation,
  ConversationBudget.AdmitsWhateverTheIdentifiers).
- The 255-character limit of artifact media types holds for the input, not for the canonical form, so
  the schema can refuse its own output (MediaType.LimitIsExceeded, MediaType.OutputIsAcceptedAgain).
- Nothing limits the digits of a timestamp, so a header can exceed its frame budget: it does not for
  timestamps of up to 402716915 characters, and can from the next length on
  (ContentTransfer.LongTimestampOverflows, ContentTransfer.HeadersFitExactly). Some version exceeds the
  wire budget already with a timestamp of 265830724 characters, and none does with a shorter one
  (ContentTransferLimit.LongOverflows, ContentTransferLimit.WireFits).
- Right after an insertion no entry of the session or code map is expired, provided the configured
  lifetime is positive (OAuthEntries.SessionInsertion, OAuthEntries.CodeInsertion).
- Printed run record ids are not unique over all accepted identities: exactly those are shared that
  hold a second "::" which could stand between a reference and a run id
  (RunRecordIdentity.PrintingCollides, RunRecordIdentity.SharedExactly). Parsing a printed id fails for
  more of them (RunRecordIdentity.ParsesBack).

## Model

| member | source | states |
|---|---|---|
| FileStoreTheorems.RealTimeOrder | packages/mcp/src/oauthTokenStore.ts:121-149 | In every interleaved run the queue order, with each read placed after the jobs it saw, respects real time: a call that returned before another was invoked is ordered before it, so a `get` sees every mutation acknowledged before it was called |
| FileStoreTheorems.LegalResults | packages/mcp/src/oauthTokenStore.ts:121-181 | Every returned call got exactly what the sequential store gives at its place in that order; with RealTimeOrder this is linearizability |
| FileStoreTheorems.NoLostUpdates | packages/mcp/src/oauthTokenStore.ts:121-142 | Memory is the fold of the successful operations in queue order over the loaded map, and no two acknowledgements share a job |
| FileStoreTheorems.CrashConsistent | packages/mcp/src/oauthTokenStore.ts:105-142 | At every point of every run the file loads to the result of a prefix of the successful operations (the one whose rename has landed included) that contains every acknowledged one |
| FileStoreTheorems.RunRefinesMemory | packages/mcp/src/oauthTokenStore.ts:38-68 | Under a non-decreasing clock the file store holds, as far as unexpired tokens go, what the memory store would hold after the same operations |
| FileStoreTheorems.SingleFlight | packages/mcp/src/oauthTokenStore.ts:76-103 | At most one load and one write are in flight, and a pending load finds no mutation it could overwrite |
| FileStoreTheorems.CommitsAreAtomic | packages/mcp/src/oauthTokenStore.ts:125-134 | In every run, once loaded, memory changes only when a write commits, by exactly that operation on what memory holds then |
| FileStoreTheorems.GetDrainsTheQueue | packages/mcp/src/oauthTokenStore.ts:145-149 | In every run a `get` that passed its load reads only after every job queued at that moment has settled |
| FileStoreTheorems.UntouchedBeforeLoad | packages/mcp/src/oauthTokenStore.ts:76-103 | Until a load succeeds nothing is written to the file and no call returns |
| FileStoreTheorems.FailedWriteIsHarmless | packages/mcp/src/oauthTokenStore.ts:125-142 | In every run a failed write changes neither memory nor the file, the two agree right after it, and the next job can start |
| FileStoreTheorems.EveryJobSettles | packages/mcp/src/oauthTokenStore.ts:125-141 | From every reachable state finitely many steps of the store settle every queued job, whichever writes succeed and whichever fail: a job whose file is in place commits, any other ends as its write does |
| FileStoreRecovery.StoreRecovers | packages/mcp/src/oauthTokenStore.ts:76-149 | From every reachable state of a store that is loaded or whose file can be loaded, whatever loads and writes have failed before, finitely many steps of the store end every call in flight, and a call invoked then returns with a value after finitely many more |
| FileStoreRecovery.FailedLoadIsAwaited | packages/mcp/src/oauthTokenStore.ts:80-102 | In every run, until a load has succeeded, the load that new calls would join is still awaited by some call, which clears it if it fails |
| FileStoreRecovery.ThrowsExactly | packages/mcp/src/oauthTokenStore.ts:94-141 | In every run a call throws exactly when it is resumed after the load it was waiting for failed or after its own write failed |
| FileStoreInvariant.StepInv | packages/mcp/src/oauthTokenStore.ts:76-149 | Every event of the store protocol keeps the invariant that ties memory, queue, file, loads and calls together |
| TokenStore.FileRefinesMemory | packages/mcp/src/oauthTokenStore.ts:38-68 | Over any sequence of operations with a non-decreasing clock the purging fold and the plain fold agree on all unexpired tokens |
| TokenStore.SameResults | packages/mcp/src/oauthTokenStore.ts:167-180 | `replace` returns the same result in both stores at every position of such a sequence, despite the purge on persist |
| TokenStore.ApplyAgrees | packages/mcp/src/oauthTokenStore.ts:150-180 | Each operation keeps two maps in agreement on unexpired tokens and returns the same on both |
| TokenStore.ApplyMeans | packages/mcp/src/oauthTokenStore.ts:150-180 | What each operation leaves under each hash and returns: later tokens of a list win, a deleted hash is absent, `replace` removes the presented token, brings the new ones only if it was unexpired, and then returns it |
| TokenStore.WriteMeans | packages/mcp/src/oauthTokenStore.ts:105-128 | A write leaves what its operation leaves, without exactly the tokens expired when it persists |
| TokenFile.LoadUndoesPersist | packages/mcp/src/oauthTokenStore.ts:105-119 | Loading the file written for a map gives back the same map, in whatever order the file lists the tokens |
| TokenFile.ParseFileFor | packages/mcp/src/oauthTokenStore.ts:184-234 | The parser accepts what `persist` writes and reads back the same tokens in the same order |
| TokenFile.ParseFileMeans | packages/mcp/src/oauthTokenStore.ts:184-234 | A file is read if and only if it is an object of version 1 or 2 with a list of tokens that all have their fields; it gives all of them, in order, those of version 1 as access tokens |
| TokenFile.LoadMeans | packages/mcp/src/oauthTokenStore.ts:80-93 | No file loads as no tokens, a file that is read as its tokens by hash, later ones winning, and any other file fails to load |
| TokenStores.FileTokenStore.Invoke | packages/mcp/src/oauthTokenStore.ts:76-103 | A call starts or joins the single load; the new state is that of the protocol and keeps its invariant |
| TokenStores.FileTokenStore.LoadSettles | packages/mcp/src/oauthTokenStore.ts:80-93 | The load fills the map, takes a missing file as empty, or fails without touching it |
| TokenStores.FileTokenStore.ResumesAfterLoad | packages/mcp/src/oauthTokenStore.ts:94-102 | A call behind the load joins the queue, or throws after a failed load and clears it unless another has taken its place |
| TokenStores.FileTokenStore.JobStarts | packages/mcp/src/oauthTokenStore.ts:105-128 | A write copies the current map, applies its operation, purges expired tokens and prepares the file |
| TokenStores.FileTokenStore.Renames | packages/mcp/src/oauthTokenStore.ts:118-118 | The rename puts the prepared file in place before memory changes |
| TokenStores.FileTokenStore.JobSettles | packages/mcp/src/oauthTokenStore.ts:128-140 | Only a successful write publishes its map; the queue goes on either way |
| TokenStores.FileTokenStore.Returns | packages/mcp/src/oauthTokenStore.ts:141-149 | A call returns its job's result or reads the map |
| TokenStores.MemoryTokenStore.Replace | packages/mcp/src/oauthTokenStore.ts:55-66 | The in-place replacement is the operation the file store is compared with, result included |
| TokenStores.MemoryTokenStore.Get | packages/mcp/src/oauthTokenStore.ts:41-43 | The stored token, expired or not, or none |
| TokenStores.MemoryTokenStore.SetMany | packages/mcp/src/oauthTokenStore.ts:44-51 | Inserting is the operation the file store is compared with, at any clock value |
| TokenStores.MemoryTokenStore.Delete | packages/mcp/src/oauthTokenStore.ts:52-54 | Deleting likewise |
| TokenStores.InsertAll | packages/mcp/src/oauthTokenStore.ts:47-51 | The insertion loop is the map update with later tokens winning |
| TokenStores.PurgeExpired | packages/mcp/src/oauthTokenStore.ts:105-111 | The loop removes exactly the expired tokens |
| TokenStores.Republish | packages/mcp/src/oauthTokenStore.ts:129-132 | Clearing and refilling the live map leaves exactly the written map |
| OAuthTheorems.AcceptedTokensDescend | packages/mcp/src/oauth.ts:180-199 | In every interleaved run from an empty store each accepted access token descends, through one code exchanged with the verifier of its challenge and any number of refreshes, from a consent for the same client and resource whose scope includes its scope |
| OAuthHistory.MintedTokensDescend | packages/mcp/src/oauth.ts:441-559 | In every run so does every token ever minted, along a path in which each refresh presented the refresh token minted before |
| OAuthHistory.AcceptancesWerePresented | packages/mcp/src/oauth.ts:185-198 | In every run each acceptance goes back to a check that found an unexpired access token of an allowed resource with the default scope, which the store held when it was read |
| OAuthAnswers.AnswersAreRecorded | packages/mcp/src/oauth.ts:266-559 | In every run each answer that grants something was given by one event on its request, which recorded the fact behind it: a consent page its consent, a redirect its code, a token answer an exchange or refresh with exactly its tokens, a passed check its acceptance |
| OAuthAnswers.AnswersAreSeparate | packages/mcp/src/oauth.ts:266-559 | No two answers rest on one fact |
| OAuthAnswers.IssuedTokensDescend | packages/mcp/src/oauth.ts:441-559 | In every run both tokens of a token answer descend from a consent and stay within it, and are of the right kinds |
| OAuthAnswers.PassedChecksDescend | packages/mcp/src/oauth.ts:180-199 | In every run a check that passed for a request was resumed with the unexpired access token that the request had read under the hash it presented, and that same token descends from a consent for the same client and resource and carries no more scope |
| OAuthTheorems.AtMostOnce | packages/mcp/src/oauth.ts:322-331 | In every run a consent yields at most one code, a code at most one exchange and a refresh token at most one successful refresh |
| OAuthTheorems.OneLiveRefreshPerGrant | packages/mcp/src/oauth.ts:503-550 | In every run two stored refresh tokens that go back to one exchange are one token, failed store writes included |
| OAuthTheorems.ConsumedIsWhatWasRead | packages/mcp/src/oauth.ts:543-550 | What `replace` consumed is the refresh token that was read before, so the handler's second kind check never fires |
| OAuthFailures.FailedExchangeIsFinal | packages/mcp/src/oauth.ts:471-483 | In every run, once the store write of an exchange has failed, its code is never in the code map again and yields no exchange, and none of the hashes it minted is ever in the token map |
| OAuthFailures.FailedRefreshCanBeRepeated | packages/mcp/src/oauth.ts:534-550 | In every run a failed refresh leaves the presented refresh token as it was, and a request that presents it in time, for its client, resource and scope, still succeeds |
| OAuthTheorems.ConfirmGoesOn | packages/mcp/src/oauth.ts:320-374 | In every run a confirmation uses up its nonce and no other, and goes on to the client lookup exactly when the session is unexpired, each posted field agrees with it and its resource is still allowed; it is told which of the two is wrong |
| OAuthHistory.ExchangesWerePresented | packages/mcp/src/oauth.ts:449-471 | In every run each successful exchange goes back to a request that presented the unexpired code with its client, redirect URI and resource and the verifier of its challenge |
| OAuthHistory.ExchangesGoOn | packages/mcp/src/oauth.ts:449-483 | In every run an exchange goes on to the store exactly when it presents such a code; the code was never exchanged before and is then in no map. The tokens carry its client, resource and scope, with a refresh token exactly when the word offline_access is in the scope; the access token expires after the configured time, the refresh token after 90 days |
| OAuthHistory.RefreshesWerePresented | packages/mcp/src/oauth.ts:503-532 | In every run each successful refresh goes back to a request for the client, resource and scope of an unexpired refresh token, which the store held when it was read |
| OAuthHistory.RefreshesGoOn | packages/mcp/src/oauth.ts:503-543 | In every run a refresh goes on to the store exactly when it presents such a token, which a recorded exchange or refresh had minted. The new tokens are for its client and resource. Their scope is its own when no scope is posted, otherwise the one of the two normal scopes with the words of the posted text, the default when that is blank; there is a refresh token exactly when that scope includes offline access, and lifetimes are as for an exchange |
| OAuthOutcomes.RefreshRefuses | packages/mcp/src/oauth.ts:503-532 | A refresh that does not go on is refused for its scope exactly when only that is wrong; otherwise the grant is invalid, and an expired token is deleted first |
| OAuthOutcomes.ReadsFind | packages/mcp/src/oauth.ts:185-185 | A read finds what the store holds under the presented hash |
| OAuthOutcomes.CommitsAnswer | packages/mcp/src/oauth.ts:471-559 | In every run a failed store write changes nothing and is reported; a successful one leaves exactly what its operation leaves, and the request is told its new tokens, for a refresh whenever the presented token was still there unexpired |
| OAuthOutcomes.ChecksDecide | packages/mcp/src/oauth.ts:180-199 | In every run a resumed check passes exactly for an unexpired access token of an allowed resource, and an expired token of either kind is deleted before the check is denied |
| OAuthOutcomes.CodeIsRedeemed | packages/mcp/src/oauth.ts:441-491 | From every reachable state whoever presents a fitting unexpired code gets tokens for its client, resource and scope once the store has written, and the store then holds them |
| OAuthOutcomes.StoredTokenPasses | packages/mcp/src/oauth.ts:180-199 | From every reachable state a request with a stored, unexpired access token of an allowed resource passes |
| OAuthTheorems.MapsStayBounded | packages/mcp/src/oauth.ts:48-50 | In every run there are never more than 128 consent sessions or 128 codes |
| OAuthEntries.SessionInsertion | packages/mcp/src/oauth.ts:277-300 | The page is answered with a nonce if and only if the client found has the redirect URI, fewer than 128 unexpired sessions remain and the first candidate that none of them has exists and is not empty; the session enters under it for the configured lifetime and the unexpired ones stay as they were. Right afterwards none is expired if and only if that lifetime is positive. Otherwise the answer names the client, the redirect URI or the lack of room |
| OAuthEntries.CodeInsertion | packages/mcp/src/oauth.ts:371-403 | The same for confirmations and codes, with the redirect to the URI and the state of the session |
| OAuthEntries.ConsentsWereAsked | packages/mcp/src/oauth.ts:266-300 | In every run each recorded consent was stored for a client found with its redirect URI, after a page request that was complete and asked for exactly that consent |
| OAuthEntries.CodesWereConfirmed | packages/mcp/src/oauth.ts:302-403 | In every run each recorded code was issued to a client found with its redirect URI and sent there, after a confirmation of the unexpired session of its consent; the state sent along is that of the consent, unless empty |
| OAuthEntries.PageGoesOn | packages/mcp/src/oauthAuthorization.ts:28-53 | A page request goes on to the client lookup if and only if it is complete, with the parameters it asks for; otherwise it is told what it lacks |
| OAuthEntries.ArrivalPrunes | packages/mcp/src/oauth.ts:97-103 | Every request first drops exactly the expired entries from both maps |
| OAuthSteps.StepInv | packages/mcp/src/oauth.ts:266-559 | Every event of every handler keeps the server invariant: grants justified by earlier grants, tickets held once and unspent, one live refresh token per grant, maps bounded |
| OAuthOverFile.RefinesAtomic | packages/mcp/src/oauth.ts:180-559 | Every run of the server over the file store, await by await and with crashes at any point, is a run of the machine in which each store operation takes effect at once: one atomic run passes in order through what is seen of every state, and a crash is a restart that keeps the tokens, after the commit of a job whose file is in place |
| OAuthOverFile.AcceptedTokensDescendOverFile | packages/mcp/src/oauth.ts:180-199 | Provenance therefore holds over the file store and across crashes, whatever loads, writes, failures and returns interleave |
| OAuthOverFile.SingleUseOverFile | packages/mcp/src/oauth.ts:322-550 | So does single use of consents, codes and refresh tokens |
| OAuthOverFile.OneLiveRefreshOverFile | packages/mcp/src/oauth.ts:503-550 | So does the single live refresh token of a grant, in memory or in a file that a new process has not loaded yet |
| OAuthOverFile.AnswersAreRecordedOverFile | packages/mcp/src/oauth.ts:266-559 | Over the file store each answer that grants something was given by one event on its request, which recorded the fact behind it: the event of its handler, or for tokens the settling of the write it waited for |
| OAuthOverFile.AnswersAreSeparateOverFile | packages/mcp/src/oauth.ts:266-559 | There too no two answers rest on one fact |
| OAuthOverFile.IssuedTokensDescendOverFile | packages/mcp/src/oauth.ts:441-559 | There too both tokens of a token answer descend from a consent and stay within it |
| OAuthOverFile.PassedChecksDescendOverFile | packages/mcp/src/oauth.ts:180-199 | There too, and across crashes, the token that a passed check presented, read under the hash of its request and found unexpired, descends from a consent for the same client and resource and carries no more scope |
| OAuthAuthorization.Revalidation | packages/mcp/src/oauthAuthorization.ts:28-53 | Validating a stored session again can fail only on the resource, and otherwise yields the session's own parameters, an empty state aside |
| OAuthAuthorization.ValidatedMeans | packages/mcp/src/oauthAuthorization.ts:28-53 | Validation passes exactly the requests with response type "code", method "S256", a challenge, an allowed resource and a scope that has a normal form, and gives back what they ask for |
| OAuthScope.NormalizeIdempotent | packages/mcp/src/oauthValidation.ts:34-47 | Scope normalisation has two results and fixes both |
| OAuthScope.NormalizeMeans | packages/mcp/src/oauthValidation.ts:34-47 | A text normalises to the scope with the same words: the default when it has no other word, both scopes when it has exactly these two, and nothing otherwise; words are the runs between white space |
| OAuthScope.PiecesAreWords | packages/mcp/src/oauthValidation.ts:34-60 | The pieces that splitting gives are the words of the text, and perhaps the empty string |
| OAuthScope.NormalFormIncludes | packages/mcp/src/oauthValidation.ts:49-55 | A normal scope includes the default scope, and offline access exactly in the longer form |
| OAuthScope.SubsetTransitive | packages/mcp/src/oauthValidation.ts:57-60 | Scope inclusion is transitive, across any spelling of the middle scope |
| OAuthScope.SubsetOfNormalForm | packages/mcp/src/oauthValidation.ts:57-60 | Between normal forms inclusion only ever drops offline access |
| OAuthProvider.PruneExpired | packages/mcp/src/oauth.ts:582-588 | The deleting loop keeps exactly the unexpired entries, unchanged |
| OAuthProvider.GenerateUnique | packages/mcp/src/oauth.ts:590-601 | The retry loop returns the first free candidate, and none exactly when all eight are taken |
| OAuthProvider.Provider.Reserve | packages/mcp/src/oauth.ts:285-293 | No key when the map is full or the generator finds none, and otherwise a key that is free |
| OAuthProvider.Provider.Arrives | packages/mcp/src/oauth.ts:97-103 | Every request first prunes both maps at one clock reading |
| OAuthProvider.Provider.PageStores | packages/mcp/src/oauth.ts:277-300 | The page handler prunes, checks the limit and inserts, as one event of the machine |
| OAuthProvider.Provider.ConfirmStarts | packages/mcp/src/oauth.ts:320-374 | The confirm handler deletes the nonce before anything else can fail, as one event |
| OAuthProvider.Provider.ConfirmIssues | packages/mcp/src/oauth.ts:376-403 | The confirm handler after the lookup inserts the code, as one event |
| OAuthProvider.Provider.ExchangeStarts | packages/mcp/src/oauth.ts:449-483 | The exchange deletes the code and mints before the store write, as one event |
| CanonicalJson.ParserInvertsPrinter | packages/agent-host-protocol/src/canonicalJson.ts:23-62 | A parser reads every canonical text back as the value with its keys sorted |
| CanonicalJson.CanonicalDecidesSameness | packages/agent-host-protocol/src/canonicalJson.ts:19-62 | Two values have one canonical text if and only if they differ at most in key order, at any depth |
| CanonicalJson.ParsePrinted | packages/agent-host-protocol/src/canonicalJson.ts:23-62 | Every printed value is read back exactly, and what followed it is left over |
| CanonicalPrinter.Canonicalize | packages/agent-host-protocol/src/canonicalJson.ts:23-62 | The one-pass recursive printer returns sorting everywhere followed by printing in order, and fails exactly on values with an unsupported part |
| CanonicalPrinter.CanonicalizeItems | packages/agent-host-protocol/src/canonicalJson.ts:44-46 | The loop over items is the canonical form of the array, and fails at the first unsupported item |
| CanonicalPrinter.SortNormalized | packages/agent-host-protocol/src/canonicalJson.ts:53-58 | Sorting the entries before or after canonicalising their values gives the same entries |
| CanonicalPrinter.CanonicalizeRecord | packages/agent-host-protocol/src/canonicalJson.ts:47-60 | The loop over sorted keys that pushes parts is the canonical form of the object |
| CanonicalPrinter.DigestDecidesSameness | packages/agent-host-protocol/src/executionEnvelopeHash.ts:12-18 | Unless the hash collides on the two inputs, two envelopes have one digest if and only if they differ at most in key order |
| CanonicalPrinter.PrintIsWellFormed | packages/agent-host-protocol/src/executionEnvelopeHash.ts:13-16 | Printed JSON has no lone surrogate whatever its strings hold, so hashing its UTF-8 form loses nothing |
| JsonText.ParseEscaped | packages/agent-host-protocol/src/canonicalJson.ts:35-37 | String escaping is undone by reading, for every UTF-16 string |
| KeyOrder.SortedUnique | packages/agent-host-protocol/src/canonicalJson.ts:53-53 | Ascending entry lists with the same entries are equal, so sorting by code units fixes the order |
| KeyOrder.SortSorts | packages/agent-host-protocol/src/canonicalJson.ts:53-53 | Entries with distinct keys come out strictly ascending: at the first difference between two keys the earlier one has ended or has the smaller code unit |
| KeyOrder.LessIsPrecedes | packages/agent-host-protocol/src/canonicalJson.ts:53-53 | The comparison decides that order on all keys |
| CanonicalJson.NormMeans | packages/agent-host-protocol/src/canonicalJson.ts:44-60 | The sorted value is the one value that is the same up to key order and has the keys of every object, at any depth, ascending by code units |
| CanonicalJson.PrintedForms | packages/agent-host-protocol/src/canonicalJson.ts:23-62 | The characters of the literals and around and between strings, items and members |
| CanonicalJson.NumUnits | packages/agent-host-protocol/src/canonicalJson.ts:30-33 | The characters of a number |
| JsonText.EscapedForms | packages/agent-host-protocol/src/canonicalJson.ts:34-36 | Each code unit is written as itself, as its short escape or with four small hexadecimal digits, as section 3.2.2.2 of RFC 8785 says |
| JsonText.EscapedPair | packages/agent-host-protocol/src/canonicalJson.ts:34-36 | A high and a low surrogate are written as they are, and no other two halves |
| Base64Url.RoundTrip | packages/agent-host-protocol/src/agentHostSetupHandoff.ts:31-43 | Decoding undoes encoding if and only if the text has no lone surrogate and does not start with a byte order mark |
| Base64Url.DecodedEncoded | packages/agent-host-protocol/src/agentHostSetupHandoff.ts:31-43 | For every text decoding succeeds and gives the text with lone surrogates replaced and a leading byte order mark dropped |
| Base64Url.MarkIsLost | packages/agent-host-protocol/src/agentHostSetupHandoff.ts:38-43 | A well-formed text that does not come back: a single byte order mark |
| Base64Url.OutputIsUrlSafe | packages/agent-host-protocol/src/agentHostSetupHandoff.ts:35-35 | The output is unpadded text of the URL-safe alphabet, four symbols for three bytes rounded up |
| Base64Url.OutputSpells | packages/agent-host-protocol/src/agentHostSetupHandoff.ts:31-36 | The i-th symbol spells the i-th group of six bits of the UTF-8 bytes in the alphabet of section 5 of RFC 4648 |
| Base64Url.DecodableTexts | packages/agent-host-protocol/src/agentHostSetupHandoff.ts:38-43 | A text of URL-safe symbols decodes unless one is left over behind groups of four, and no text with a foreign character does |
| Base64Url.SpaceIsSkipped | packages/agent-host-protocol/src/agentHostSetupHandoff.ts:41-41 | `atob` skips white space anywhere in its input |
| Base64Url.PaddingIsRecomputed | packages/agent-host-protocol/src/agentHostSetupHandoff.ts:39-40 | The padding computed from the length is exactly the padding that was stripped |
| Base64Url.AtobBtoa | packages/agent-host-protocol/src/agentHostSetupHandoff.ts:35-41 | `atob` undoes `btoa` on every byte string |
| Base64Url.EncodeBase64Url | packages/agent-host-protocol/src/agentHostSetupHandoff.ts:31-36 | The encoder that grows a binary string byte by byte computes the specified encoding |
| Utf8.DecodeEncoded | packages/agent-host-protocol/src/agentHostSetupHandoff.ts:32-42 | UTF-8 decoding undoes encoding exactly on well-formed texts without a leading byte order mark |
| Utf8.DecodesStrictly | packages/agent-host-protocol/src/agentHostSetupHandoff.ts:38-43 | The decoder reads a character only where exactly its encoding stands, and a replacement everywhere else |
| SetupHandoff.ParseSerialized | packages/agent-host-protocol/src/agentHostSetupHandoff.ts:45-71 | Parsing a serialized handoff returns the accepted record before its expiry and reports the expiry from that moment on |
| SetupHandoff.ParseDecides | packages/agent-host-protocol/src/agentHostSetupHandoff.ts:50-71 | A text is refused for its prefix, as invalid when it does not decode, is no JSON or no handoff, and as expired from its expiry on; otherwise the accepted record is returned |
| SetupHandoff.HandoffAccepts | packages/agent-host-protocol/src/agentHostSetupHandoff.ts:10-27 | The schema accepts exactly the objects with these fields, of these kinds, and no others |
| SetupHandoff.HandoffMakes | packages/agent-host-protocol/src/agentHostSetupHandoff.ts:10-27 | The record keeps the texts, trims the two display names and lists its fields in order |
| SetupHandoff.ParserReads | packages/agent-host-protocol/src/agentHostSetupHandoff.ts:57-62 | The parser of this model reads back every printed value, as ParseSerialized assumes of `JSON.parse` for the accepted record |
| SetupHandoff.HandoffStable | packages/agent-host-protocol/src/agentHostSetupHandoff.ts:10-27 | What the schema accepts passes it again unchanged: trimming and field order settle in one pass |
| StrictSchema.StrictObjectStable | packages/agent-host-protocol/src/agentHostSetupHandoff.ts:10-27 | A strict object of rules that accept their own outputs accepts its own outputs, with known keys only and each once |
| GraphRedaction.RedactStructured | packages/agent-host-protocol/src/runnerEventRedaction.ts:190-236 | On every finite object graph, cycles included, the walk ends and computes the redaction of the tree with cycles cut; a normal return restores the ancestor set |
| GraphRedaction.RedactObject | packages/agent-host-protocol/src/runnerEventRedaction.ts:203-234 | An object on the path gives the marker; any other is an ancestor during its own visit only |
| GraphRedaction.RedactArray | packages/agent-host-protocol/src/runnerEventRedaction.ts:203-212 | The loop over items does so for arrays, and stops at the first failing text |
| GraphRedaction.RedactRecord | packages/agent-host-protocol/src/runnerEventRedaction.ts:219-233 | The loop over entries does so for objects, with dropped keys left out |
| GraphRedaction.RedactPayload | packages/agent-host-protocol/src/runnerEventRedaction.ts:238-244 | From an empty ancestor set the output is safe and clean, and on an input with a finite unfolding it is the plain redaction of that tree, each shared object expanded at every occurrence |
| TreeRedaction.OutputIsSafe | packages/agent-host-protocol/src/runnerEventRedaction.ts:190-236 | In every output no object holds `_meta`, a sensitive key holds only the marker, no reference is left unexpanded, and a terminal auth method of the protocol has no environment |
| TreeRedaction.OutputIsClean | packages/agent-host-protocol/src/runnerEventRedaction.ts:197-202 | Every string of an output, at any depth, is a marker, an output of the text redactor, or a value under a protocol identity key |
| TreeRedaction.RedactTwice | packages/agent-host-protocol/src/runnerEventRedaction.ts:190-236 | Redacting a redacted value changes nothing, provided text redaction leaves its own outputs and the markers alone |
| ObjectGraph.UnfoldsExactlyWhenUncut | packages/agent-host-protocol/src/runnerEventRedaction.ts:204-218 | A value has a finite unfolding if and only if no reference is cut, so markers for cycles appear on cyclic inputs only |
| ObjectGraph.UnfoldingIsCut | packages/agent-host-protocol/src/runnerEventRedaction.ts:204-219 | Where an unfolding exists the ancestor check cuts nothing, shared objects included |
| RedactionKeys.IdentityIsNotSensitive | packages/agent-host-protocol/src/runnerEventRedaction.ts:147-182 | No key is both a protocol identity and sensitive, so the identity exemption never exposes a sensitive key |
| RedactionKeys.SensitiveMeans | packages/agent-host-protocol/src/runnerEventRedaction.ts:164-182 | A key is sensitive if and only if it ends in one of the eight words, in any case and with any separators |
| RedactionKeys.CaseIsIgnored | packages/agent-host-protocol/src/runnerEventRedaction.ts:175-182 | Neither sensitive nor identity keys depend on the case of an ASCII letter anywhere |
| RedactionKeys.SeparatorsAreIgnored | packages/agent-host-protocol/src/runnerEventRedaction.ts:175-182 | Nor on units that are no ASCII letter or digit, put in or left out anywhere |
| TreeRedaction.RedactMeans | packages/agent-host-protocol/src/runnerEventRedaction.ts:190-236 | Redaction returns a value if and only if it is the redacted one: identity values under identity keys as they were, the marker under every key that ends in a credential word, texts through the text redactor, dropped entries left out, everything else in its place |
| JsonBytes.EscapedBytes | packages/collaboration-protocol/src/limits.ts:149-155 | Escaping a string costs at most six bytes for each UTF-16 unit and for each UTF-8 byte |
| JsonBytes.NulBytes | packages/agent-host-protocol/src/hostEventTransport.ts:32-35 | Null characters reach the bound: six bytes for each |
| ContentTransfer.HeadersFitExactly | packages/collaboration-protocol/src/limits.ts:149-151 | All headers with an n-character timestamp fit the frame budget if and only if n is at most TIMESTAMP_LIMIT, which is what the largest header without a timestamp leaves of the budget |
| ContentTransfer.LongTimestampOverflows | packages/collaboration-protocol/src/contentVersionTransfer.ts:30-47 | Every timestamp longer than the limit, by one character or more, makes a header that the schema accepts and the frame budget does not |
| ContentTransfer.FramesFit | packages/collaboration-protocol/src/limits.ts:149-151 | Member and completion frames of every accepted version fit the frame budget, newlines included, and so does the header with a timestamp within the limit |
| ContentTransfer.WireFitsExactly | packages/collaboration-protocol/src/limits.ts:152-155 | The frames of a version fit the wire budget if and only if the timestamp is no longer than what they leave of it without one |
| ContentTransferLimit.WireFits | packages/collaboration-protocol/src/limits.ts:152-155 | All accepted versions with an n-character timestamp fit the wire budget if and only if n is at most 265830723 |
| ContentTransferLimit.LongOverflows | packages/collaboration-protocol/src/contentVersion.ts:120-175 | For every greater length there is an accepted version, sorted by the collator, and an origin whose frames exceed the wire budget by as much |
| ContentTransferLimit.WireIsBounded | packages/collaboration-protocol/src/limits.ts:152-155 | No accepted version takes more than the largest one, whatever its members: digits of sizes are charged to their bytes |
| ContentTransfer.TimestampAdds | packages/collaboration-protocol/src/contentVersionTransfer.ts:30-47 | The timestamp counts in the header once for each of its characters |
| ContentTransfer.MemberFrameSize | packages/collaboration-protocol/src/contentVersionTransfer.ts:52-58 | A member frame takes at most six bytes for each content byte and 704 more |
| ConversationBudget.AdmitsWhateverTheIdentifiers | packages/agent-host-protocol/src/hostEventTransport.ts:9-46 | For every valid budget, status, error text, message id and timestamp of the schema: all events with these fit, whatever their other identifiers hold, if and only if the four together take no more bytes than in the event of the minimum constant, give or take the spare budget |
| ConversationBudget.FailuresAreAdmitted | packages/agent-host-protocol/src/hostEventTransport.ts:26-46 | Every failed event and every event without an error, with a UUID-length message id, a 24-character timestamp and an error of at most 128 unescaped characters, fits each budget from the minimum on |
| ConversationBudget.IntendedAdmittedExactly | packages/agent-host-protocol/src/hostEventTransport.ts:26-46 | For any status and any such error, all such events fit a budget if and only if status and error are together no longer than in the event of the minimum, give or take the spare budget |
| ConversationBudget.MinimumMissesCancellation | packages/agent-host-protocol/src/hostEventTransport.ts:26-46 | A cancelled event of the same kind that the minimum does not admit: the constant is computed with the shortest status |
| ConversationBudget.EventSize | packages/agent-host-protocol/src/acpConversationProtocol.ts:150-168 | The exact number of bytes of any status event |
| ConversationBudget.MinimumIs | packages/agent-host-protocol/src/hostEventTransport.ts:27-46 | The minimum constant is 11176 |
| ConversationBudget.WorstIsLargest | packages/agent-host-protocol/src/hostEventTransport.ts:27-45 | Among all events of the schema with one status, error, message id and timestamp, the one with null-character identifiers and the largest sequence number is the longest |
| ContentVersion.Refine | packages/collaboration-protocol/src/contentVersion.ts:127-175 | The refinement loop raises exactly the issues there are: duplicates, neighbours out of order, kind mismatches, manifest and layout counts, total |
| ContentVersion.SameMembersSameVersion | packages/collaboration-protocol/src/contentVersion.ts:120-190 | Accepted versions with the same member set have identical member sequences and one digest payload, given that the collator orders strictly |
| ContentVersion.PayloadDecidesMembers | packages/collaboration-protocol/src/contentVersion.ts:178-190 | Payloads of accepted versions are equal if and only if their members agree, as sets, on kind, path, digest and size |
| ContentVersion.PayloadReads | packages/collaboration-protocol/src/contentVersion.ts:179-190 | Read as JSON, the digest payload lists the members in order, each with its kind, path, digest and size, and the total |
| ContentVersion.OrderExcludesDuplicates | packages/collaboration-protocol/src/contentVersion.ts:128-144 | Neighbours in strict order already exclude duplicates, so the separate check adds nothing |
| ContentVersion.KindChecksAgree | packages/collaboration-protocol/src/contentVersion.ts:79-100 | The member check and the version check of kind against path are the same check: the four path classes are disjoint |
| ContentVersion.PathMeans | packages/collaboration-protocol/src/contentVersion.ts:36-48 | A path is accepted if and only if it has 1 to 512 letters, digits and marks, begins with a letter or digit and has no segment that is empty, "." or ".." |
| ContentVersion.MemberMeans | packages/collaboration-protocol/src/contentVersion.ts:57-92 | A member is accepted if and only if its path is good and of its kind, its digest is 64 small hexadecimal digits and its size the number of UTF-8 bytes of its content, at most 64 MiB |
| MediaType.CanonicalizeIdempotent | packages/agent-host-protocol/src/artifactMediaType.ts:16-23 | On every string, canonicalising twice is canonicalising once |
| MediaType.CanonicalFormStays | packages/agent-host-protocol/src/artifactMediaType.ts:16-23 | The canonical form is in the grammar and its own canonical form. It says what the text says: type, subtype and parameter names in small letters, the parameters in their order with one space in front of each, their values as they were |
| MediaType.TokenUnits | packages/agent-host-protocol/src/artifactMediaType.ts:6-6 | The characters of a token |
| MediaType.QuotedMeans | packages/agent-host-protocol/src/artifactMediaType.ts:7-7 | A quoted string is items between two quotes, each a visible character that is neither a quote nor a backslash, or a backslash and any visible character |
| MediaType.PrintedMarks | packages/agent-host-protocol/src/artifactMediaType.ts:8-14 | What stands between type and subtype and around parameter names; optional white space is spaces and tabs |
| MediaType.ParserIsGrammar | packages/agent-host-protocol/src/artifactMediaType.ts:6-14 | The deterministic reader accepts exactly the strings that the pattern can generate |
| MediaType.ParsePrinted | packages/agent-host-protocol/src/artifactMediaType.ts:6-14 | Every string of the grammar has one reading |
| MediaType.ReplaceVisitsParameters | packages/agent-host-protocol/src/artifactMediaType.ts:19-21 | On the parameters of a media type the left-to-right replacing scan matches each parameter, in order, and nothing else |
| MediaType.CanonicalizeIsPrint | packages/agent-host-protocol/src/artifactMediaType.ts:16-23 | Rewriting the text computes the canonical form of what the text says |
| MediaType.CanonicalLength | packages/agent-host-protocol/src/artifactMediaType.ts:16-23 | The canonical form loses the optional white space and gains one space for each parameter |
| MediaType.OutputIsAcceptedAgain | packages/agent-host-protocol/src/artifactMediaType.ts:32-37 | The schema accepts its own output if and only if the spaces gained keep within 255 characters |
| MediaType.LimitIsExceeded | packages/agent-host-protocol/src/artifactMediaType.ts:25-37 | An accepted type of 255 characters whose output has 256 and is refused |
| RunRecordIdentity.RebuiltExactly | packages/runtime/src/runRecordIdentity.ts:14-24 | Every record id that parses is its parts joined |
| RunRecordIdentity.ParsesExactly | packages/runtime/src/runRecordIdentity.ts:14-24 | A record id reads as an identity if and only if it is its two parts around "::", neither empty, and can be split nowhere else; a reference with a hash has to be two pieces around exactly one |
| RunRecordIdentity.IdsMean | packages/runtime/src/runRecordIdentity.ts:41-48 | The patterns of run ids and feedback ids |
| RunRecordIdentity.ParsesBack | packages/runtime/src/runRecordIdentity.ts:26-58 | An accepted identity parses back to itself if and only if its reference holds no "::" and does not end in ":" and its run id holds no "::" |
| RunRecordIdentity.SharedExactly | packages/runtime/src/runRecordIdentity.ts:26-58 | An accepted identity shares its printed id with another accepted one if and only if its run id holds a "::" before a word character with a reference to its left, or its reference holds one with a reference to its left and the start of a run id to its right |
| RunRecordIdentity.SeparableIsUnique | packages/runtime/src/runRecordIdentity.ts:14-58 | Identities that parse back to themselves share their printed id with no other |
| RunRecordIdentity.UniqueButNotSeparable | packages/runtime/src/runRecordIdentity.ts:14-58 | The converse fails, on an identity whose reference ends in ":" |
| RunRecordIdentity.PrintingCollides | packages/runtime/src/runRecordIdentity.ts:53-58 | Two different accepted identities with one printed id, which does not parse |
| CursorChains.CheckDelta | packages/collaboration-protocol/src/canvasCommands.ts:617-661 | The refinement raises exactly its issues; the loop reports the first break and stops |
| CursorChains.AcceptDelta | packages/collaboration-protocol/src/canvasCommands.ts:605-662 | The validator accepts exactly the deltas without an issue |
| CursorChains.DeltaIsChain | packages/collaboration-protocol/src/canvasCommands.ts:617-662 | A delta is accepted if and only if its i-th entry has revision after+i+1 and follows after+i, its head is after plus the length, and the last digest is the head's |
| CursorChains.DeltaSplits | packages/collaboration-protocol/src/canvasCommands.ts:605-662 | An accepted delta splits at any interior entry into accepted deltas that join back to it |
| CursorChains.DeltasJoin | packages/collaboration-protocol/src/canvasCommands.ts:605-662 | Accepted deltas that meet join into an accepted delta if and only if the entry limit allows |
| CursorChains.CheckBatch | packages/agent-host-protocol/src/acpEvents.ts:53-73 | The cursor loop reports a gap and returns early; otherwise it checks the final cursor and the byte limit |
| CursorChains.AcceptBatch | packages/agent-host-protocol/src/runnerEvents.ts:476-511 | A batch is accepted if and only if its i-th event has cursor after+i+1, its cursor is after plus the length, and count and byte limits hold |
| CursorChains.BatchSplits | packages/agent-host-protocol/src/runnerEvents.ts:485-511 | An accepted batch splits at any interior event into batches accepted as far as they fit |
| CursorChains.BatchesJoin | packages/agent-host-protocol/src/runnerEvents.ts:485-511 | Accepted batches that meet join into an accepted batch if and only if the limits allow |
| CanvasExports.ReturnsInInputOrder | packages/mcp/src/toolPackageFiles.ts:64-83 | In every settlement order a return has one result for each input, in input order |
| CanvasExports.AtMostTwoInFlight | packages/mcp/src/toolPackageFiles.ts:72-75 | No more than two reads are in flight at any point of any run |
| CanvasExports.ThrowsLowestError | packages/mcp/src/toolPackageFiles.ts:73-79 | A failure throws the error of the lowest failing index, after every started read has settled and with none started beyond its batch |
| CanvasExports.OutcomesAreKept | packages/mcp/src/toolPackageFiles.ts:73-75 | A read settles once; its outcome is never replaced |
| CanvasExports.Collect | packages/mcp/src/toolPackageFiles.ts:76-79 | The inner loop pushes the values before the first rejection and reports its reason |
| CanvasExports.ReadCanvasExports | packages/mcp/src/toolPackageFiles.ts:66-83 | The batching loop returns what one pass over all outcomes would, and starts no batch after a failing one |

## Left out

- HTTP reading and writing, consent page HTML, URL parsing, host and origin guards: thin layers over the platform.
- Client registration and `packages/mcp/src/oauthClientStore.ts`: the client lookup is a parameter of the events; its file store follows the same load and queue protocol as the token store with a simpler operation, and would repeat the proofs.
- SHA-256, random tokens and PKCE verification: parameters. The token hashes drawn in one run are assumed pairwise different, and digest equality assumes no collision on the two inputs compared.
- OAuthServer sees the token store as a map on which each operation takes effect at once, which OAuthOverFile proves of the file store, across crashes, when the first process starts without a file. A handler whose read throws because the file could not be loaded is left where it is. Drawn token hashes stay different across restarts.
- OAuthTheorems.AcceptedTokensDescend: starts from an empty store; tokens of a file that no process of the run wrote have no lineage to show.
- `set` of both token stores is `setMany` with one token.
- The JSON text of the token file is not modelled: the file holds the parsed value. Its order of tokens is any order, where the source sorts by locale.
- `writePrivateJsonFile` (`packages/mcp/src/privateJsonFile.ts`) is modelled by its last step, the rename: a write that fails leaves the file as it was.
- Classes for the refresh handler and the access check: their events touch the token store and their own request only, and are modelled on values in OAuthServer.
- CanonicalJson: number printing is a parameter that is read back exactly (Decimal shows one for natural numbers); negative zero, printed as zero, is therefore one number with zero. Cyclic inputs, on which the source overflows its stack, and sparse arrays are not modelled.
- Envelope and handoff schemas: the fields of the envelope are not modelled, and the endpoint and policy rules of the handoff are parameters assumed to accept their own outputs. A field that is present but undefined counts as absent.
- `runnerEventRedaction.ts` text rules: text redaction is a function that may fail. TreeRedaction.OutputIsSafe assumes that it turns no other text into "terminal". Getters and symbol keys are not modelled.
- ContentTransferLimit.WireFits: takes the collator as one that orders strictly and tells different member paths apart; other texts may tie. For any collator ContentTransferLimit.WireIsBounded holds. The timestamp grammar (Timestamps) is that of the ISO date-time schema of zod 4 without options, which is not part of the repository.
- ConversationBudget.FailuresAreAdmitted: holds for the message ids, timestamps and errors that hosts produce (36 and 24 plain characters, at most 128 unescaped characters); ConversationBudget.AdmitsWhateverTheIdentifiers gives the condition for all that the schemas allow. That error text must hold no secret is not modelled.
- ContentVersion.SameMembersSameVersion: the locale collator is a parameter whose "less than" is irreflexive and transitive.
- CursorChains: entry and event bodies are opaque, and the size of a batch is a parameter.
- CanvasExports: a read that throws before it returns a promise is not modelled.
- Server repositories, mailbox delivery, canvas command authority, Auto Run, graph editing, access evaluation, and the plain wire schemas: outside this model or easy members.
