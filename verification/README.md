# A verified model of the ATI Go SDK's trust core

The SDK decides whether a peer is the agent it claims to be. It looks up DNS records (and validates
them with DNSSEC when asked to), fetches the agent's record from a transparency log, checks Merkle
inclusion proofs and seals over canonical JSON, keeps trusted keys, proof headers and log responses in
caches that several goroutines share, and compares certificate fingerprints and host names. This
project models these parts in Dafny and proves what they achieve together.

`dafny verify dfyconfig.toml` verifies everything. One module per file:

| module | part of the system |
|---|---|
| `Text`, `Hex` | the string operations of Go's `strings`, `strconv` and `encoding/hex` the rest relies on |
| `MerkleTree`, `InclusionWalk`, `InclusionProofs` | the tree of section 2.1 of RFC 9162 top-down, the bottom-up walk over `(fn, sn)`, and the two verifiers that run it |
| `DnsNames`, `Dnssec` | presentation-format names, and the chain walk from a signer zone to the trust anchor with its DNSKEY cache |
| `Json`, `Numerals`, `Jcs`, `JcsWriter`, `Rfc8785`, `Seal` | a JSON reader, the two spellings of `strconv` and ECMAScript's, the canonical writer as a function and as the recursion over a shared buffer, the text RFC 8785 asks for, and the seal digest |
| `KeyStore`, `KeyRefresh` | merging key strings, and the refreshable key store under concurrent callers |
| `FifoCache` | the receipt cache and the status-token cache |
| `HeaderSupplier` | lazy initialization, forced and automatic refresh of proof headers |
| `Names`, `HostNames`, `Identity` | versions, names, fingerprints, SAN matching, and what it takes for a log record to vouch for a certificate |
| `BadgeCache`, `Verifier` | the badge cache, and server verification, client verification and prefetching on it |
| `VerifierRuns`, `VerifierScenes` | all interleavings of such calls and of refresh rounds, and particular runs |
| `VersionPolicy` | choosing one `_ati` record out of a DNS answer |

How things are modelled:

- Objects that update their fields are classes whose methods are proved against functions or
  relations on an abstract value. The all-runs theorems are lemmas about these functions and relations.
- Code that runs under one lock is one atomic step. `KeyRefresh`, `HeaderSupplier` and `VerifierRuns` are transition
  systems in which fetches, clock readings and lock sections of any number of threads interleave.
- Go's map iteration order is a nondeterministic choice (`:|`), and every contract holds for all choices.
- SHA-256, signature checks, key tags, DS digests, floating-point text, C2SP key parsing, the semver
  library, resolvers and the log are parameters: arbitrary functions, or functions with a stated law.
  Cryptographic soundness reads "the proof is genuine, or here are two inputs with the same hash".
- A contract `==` a function is only the connection; what that function achieves is stated by the lemmas
  listed next to it.

## Model

| member | source | states |
|---|---|---|
| `MerkleTree.SplitPointIsLargest` | verify/scitt/merkle.go:36-79 | the tree is split at the largest power of two below its size, as section 2.1.1 of RFC 9162 asks |
| `MerkleTree.ReachedIffDepth` | verify/scitt/merkle.go:46-76 | whatever its contents, a path is accepted iff its length is the depth of leaf m in the n-leaf tree, and is reported as excess iff it is longer |
| `MerkleTree.AuditPathRebuildsRoot` | verify/scitt/merkle.go:36-79 | completeness: the path generated by section 2.1.3.1 of RFC 9162 rebuilds the tree hash of section 2.1.1, for every list and every index |
| `MerkleTree.RebuiltRootIsGenuine` | verify/scitt/merkle.go:53-97 | soundness: any path and any starting leaf hash that rebuild the root of a list are the genuine path and leaf hash, or the first differing pair of node inputs is a collision |
| `MerkleTree.RootIsRfc9162` | verify/scitt/merkle.go:14-33 | the tree hash with its prefixes: of a zero byte and the only entry, or of a one byte and the hashes of the two parts at the power of two between half the size and the size |
| `MerkleTree.RebuiltRootIsOfAnEntry` | verify/scitt/merkle.go:14-79 | soundness without a known size: whatever position and size are claimed, a walk from an event that rebuilds the root of a list is that of one of its entries along its generated path, or the first differing pair of hash inputs, a leaf against a node included, is a collision |
| `MerkleTree.DepthAtMost` | verify/scitt/merkle.go:11-52 | a tree of at most 2^e leaves is at most e levels deep |
| `MerkleTree.DepthOfFullTree` | verify/scitt/merkle.go:36-79 | in a full tree every leaf is exactly e levels deep |
| `InclusionWalk.WalkLeftOfSplit` | verify/scitt/merkle.go:53-76 | for an index left of the top split the bit-shifting walk is the walk of the full left subtree followed by one sibling on the right |
| `InclusionWalk.WalkRightOfSplit` | verify/scitt/merkle.go:53-76 | for an index right of the top split it is the walk of the right subtree followed by one sibling on the left, including the inner loop that strips zero bits |
| `InclusionWalk.WalkRefinesTree` | verify/scitt/merkle.go:46-76 | the bottom-up walk over (fn, sn) returns exactly what descending the recursive tree returns, errors included |
| `InclusionProofs.WalkPath` | verify/scitt/merkle.go:49-78 | the nested loops over 64-bit words compute the top-down tree walk |
| `InclusionProofs.WalkInclusionPath` | verify/scitt/merkle.go:36-79 | every error case, and the rebuilt root otherwise |
| `InclusionProofs.RejectionsAre` | verify/scitt/merkle.go:36-79 | each error has its own cause: size zero, index out of range, more than 63 elements, more or fewer than the depth |
| `InclusionProofs.VerifyMerkleInclusion` | verify/scitt/merkle.go:84-98 | no error iff the rebuilt root is the expected one; a root mismatch iff a different root was rebuilt |
| `InclusionProofs.CappedWalkAcceptsIffDepth` | verify/scitt/merkle.go:46-76 | with the cap a path is accepted iff its length is the leaf's depth and that is at most 63 |
| `InclusionProofs.CapIsHarmlessUpTo2To63` | verify/scitt/merkle.go:46-48 | up to 2^63 leaves no leaf is deeper than 63, so what the cap rejects has excess elements anyway |
| `InclusionProofs.CapRejectsLeftHalfAbove2To63` | verify/scitt/merkle.go:46-48 | above 2^63 leaves, which the 64-bit size admits, the cap rejects the genuine proof of every leaf of the left half |
| `InclusionProofs.AcceptsOnlyTheGenuineProof` | verify/scitt/merkle.go:84-98 | under the root of a list of at most 2^63 entries exactly the m-th entry with its generated path is accepted; anything else accepted yields a collision of SHA-256 |
| `InclusionProofs.AcceptsOnlyEntries` | verify/scitt/merkle.go:14-98 | for every claimed position and tree size an event accepted under the root of a list is an entry of the list with the path generated for it, or two inputs that collide are handed over; a node input was never an entry |
| `InclusionProofs.VerifyInclusionProof` | verify/merkle.go:16-109 | each verdict says what is wrong with the proof, in the order of the checks; accepted iff it is well-formed hexadecimal in range and the tree walk gives the claimed root; excess and missing elements are told apart |
| `InclusionProofs.OneVerdict` | verify/merkle.go:16-109 | no two verdicts can be said of one response, so each is given exactly when it can be said |
| `InclusionProofs.VerifiersAgree` | verify/merkle.go:75-101 | from equal leaf hashes the badge verifier and the capped verifier accept the same proofs with the same root |
| `InclusionProofs.AcceptedBadgeProofIsGenuine` | verify/merkle.go:16-109 | an accepted badge proof carries the leaf hash and path of the m-th entry, or exhibits a collision |
| `DnsNames.WildcardOwnerIsRfc4035` | verify/dnssec.go:361-367 | the rebuilt owner is an asterisk before the rightmost labels the signature covers, as section 5.3.2 of RFC 4035 says, iff the signature covers at least one label |
| `DnsNames.WildcardOwnerOfZeroLabels` | verify/dnssec.go:361-367 | for zero covered labels of "a." the code asks for "*..", which is not the wildcard of the root |
| `DnsNames.ParentIsCloser` | verify/dnssec.go:370-385 | for every signer name whatever, the parent is strictly closer to the root: the walk ends |
| `DnsNames.ParentDropsOneLabel` | verify/dnssec.go:370-385 | the parent of a valid name is one label up iff no escaped dot hides in its first label |
| `DnsNames.ParentOfHiddenDot` | verify/dnssec.go:370-385 | for `a\.b.c.`, whose labels are `a\.b` and `c`, the code goes to `b.c.` instead of `c.` |
| `Dnssec.SecureIffChain` | verify/dnssec.go:65-118 | the walk answers secure iff there is an unbroken chain of verified links from the signer zone to the trust anchor; a link is stated by the DNSKEY and DS answers, by what each signature covers, by flags and by digests |
| `Dnssec.SecureHasChain` | verify/dnssec.go:65-118 | soundness: a secure answer yields that chain, with the signing keys, KSKs, DS sets and parents of every zone |
| `Dnssec.ChainIsSecure` | verify/dnssec.go:210-269 | completeness: any such chain makes the walk answer secure |
| `Dnssec.VerdictIffChain` | verify/dnssec.go:65-282 | for every verdict: the walk gives it iff verified links lead from the signer zone up to one whose own answers give it; insecure without keys or without DS records, and one cause for each error |
| `Dnssec.SignedFormIs` | verify/dnssec.go:78-89 | what goes to signature verification is the set itself, or when the owner has more labels than the signature covers the same records under the wildcard name of section 5.3.2 of RFC 4035; nothing else is |
| `Dnssec.SelectConcat` | verify/dnssec.go:139-156 | records are picked out of an answer in its order |
| `Dnssec.StrictIffHeads` | verify/dnssec.go:65-282 | section 5.2 of RFC 4035 wants the vouched KSK to sign the key set: such a strict chain exists iff the walk is secure and in every zone on the way up some one KSK both signs the key set and is vouched for |
| `Dnssec.SoleKsksMakeStrict` | verify/dnssec.go:165-269 | where no key set on the way up has two different KSKs every secure answer has a strict chain |
| `Dnssec.SoleKsksLeaveNoChoice` | verify/dnssec.go:165-269 | and then every chain is strict |
| `Dnssec.TwoKsksPartWays` | verify/dnssec.go:165-282 | for every key set with two different KSKs there is an environment in which the walk is secure and no strict chain exists: one KSK signs, the other is vouched for |
| `Dnssec.StrictnessNeedsSoleKsk` | verify/dnssec.go:165-282 | exact condition on a key set of the root: secure answers have strict chains in every environment iff no two keys are different KSKs |
| `Dnssec.CollectKeys` | verify/dnssec.go:139-156 | the DNSKEY records of an answer, in order, with their smallest TTL capped at a day |
| `Dnssec.Validator.Lookup` | verify/dnssec.go:121-131 | a cached key set is served only before its expiry, and an expired one is dropped |
| `Dnssec.Validator.FetchDNSKEYs` | verify/dnssec.go:121-162 | from any reachable cache state the keys are those the resolver gives; the whole new cache: an expired entry goes, and a new one lives for the smallest TTL of its keys from the next clock reading |
| `Dnssec.Validator.ValidateDNSKEYSet` | verify/dnssec.go:165-207 | no error iff some KSK of the zone verifies some signature over the key set, and which error otherwise |
| `Dnssec.Validator.VerifyRootKeys` | verify/dnssec.go:272-282 | secure iff some KSK has the anchor's digest |
| `Dnssec.Validator.SomeKeyMatchesDs` | verify/dnssec.go:226-248 | whether some KSK matches some DS record |
| `Dnssec.Validator.ValidateZoneChain` | verify/dnssec.go:65-118 | the verdict is that of the walk without a cache |
| `Dnssec.Validator.ValidateDSChain` | verify/dnssec.go:210-269 | the verdict is that of the walk without a cache |
| `Dnssec.Validator.ValidateRRset` | verify/dnssec.go:51-62 | from every reachable cache state and for every clock: secure iff the first signature's zone has a witness chain to the anchor; the cache has no influence |
| `Json.ReadsDoc` | verify/jcs.go:15-27 | the reader returns the meaning of any JSON text, with any whitespace, escapes and member order, and leaves what follows it |
| `Jcs.WrittenNumberReparses` | verify/jcs.go:113-183 | a written number is a JSON number that reparses to the number it came from, and writing it again changes nothing |
| `Jcs.NumbersConform` | verify/jcs.go:113-183 | every number is written digit by digit as section 3.2.2.3 of RFC 8785 asks, by ECMAScript's Number::toString, and refused iff it is no finite double |
| `Jcs.WrittenExponents` | verify/jcs.go:126-183 | a written number has an exponent exactly outside the band, and then with a sign and no zero in front |
| `Numerals.FixedIsEs6` | verify/jcs.go:126-139 | the spelling without an exponent is ECMAScript's for a point from the sixth zero behind it to the 21st digit |
| `Numerals.UnpaddedIsEs6` | verify/jcs.go:141-183 | outside, ECMAScript's is the one with an exponent less its padding |
| `Jcs.ReadsPrinted` | verify/jcs.go:50-110 | round trip: reading the canonical text gives the value back, wherever the text stands |
| `Jcs.PrintIsCanonical` | verify/jcs.go:50-110 | canonical and unambiguous: two values have the same text iff they are the same JSON value, numbers compared as doubles and objects as maps |
| `Jcs.CanonicalizeIdempotent` | verify/jcs.go:15-27 | canonicalizing twice is canonicalizing once |
| `Jcs.LayoutNeverMatters` | verify/jcs.go:15-27 | two texts canonicalize alike iff they denote the same value, whatever their whitespace, escapes and member order |
| `Jcs.MemberOrderNeverMatters` | verify/jcs.go:76-103 | members with distinct names denote the same object in every order |
| `Jcs.CanonIsCanonical` | verify/jcs.go:50-110 | the value read back is its own canonical form |
| `Jcs.SortedIsUnique` | verify/jcs.go:77-81 | a set of keys has one sorted enumeration, so the map's iteration order is lost |
| `Rfc8785.OrdersDisagree` | verify/jcs.go:77-81 | sorting names by characters and by UTF-16 code units, as section 3.2.3 of RFC 8785 asks, differs on two names iff where they first differ one has a character outside the basic plane and the other one from U+E000 to U+FFFF |
| `Rfc8785.DocByText` | verify/jcs.go:50-110 | a document without whitespace is determined by its text, whatever follows it |
| `Rfc8785.ConformsExactlyWhen` | verify/jcs.go:15-110 | exact condition: the text is that of RFC 8785, numbers included, iff no string or name has one of the five characters `json.Marshal` escapes for HTML and JavaScript and in no object do two names straddle the surrogates |
| `Rfc8785.MarkupIsEscaped` | verify/jcs.go:59-64 | the two texts of the string "<" |
| `Rfc8785.NamesInOtherOrder` | verify/jcs.go:77-81 | any two names that straddle the surrogates stand in opposite orders in the two texts |
| `Rfc8785.StraddlingNames` | verify/jcs.go:77-81 | U+E000 and U+10000 are such names, and neither is escaped |
| `JcsWriter.CollectKeys` | verify/jcs.go:77-81 | the keys, in whatever order the map yields them, end up in that enumeration |
| `JcsWriter.WriteValue` | verify/jcs.go:50-110 | fails iff some number is out of range; otherwise appends exactly the canonical text to the shared buffer |
| `JcsWriter.WriteArray` | verify/jcs.go:66-75 | the same for arrays |
| `JcsWriter.WriteObject` | verify/jcs.go:76-105 | the same for objects |
| `JcsWriter.JCSCanonicalize` | verify/jcs.go:15-27 | the canonical text of the first value of the input, or an error |
| `Seal.ParseFields` | verify/jcs.go:32-41 | an object of the decoded fields, or an error iff some field does not decode, in every iteration order |
| `Seal.JCSCanonicalizeFields` | verify/jcs.go:31-48 | the canonical text of that object |
| `Seal.FieldsAreBound` | verify/jcs.go:31-48 | two field maps have the same text iff they have the same names and the same value under each |
| `Seal.SealedFields` | verify/seal.go:137-175 | exactly the four sealed fields, each the raw text when that was kept and the marshalled field otherwise; nothing iff one of them cannot be marshalled |
| `Seal.ComputeSealDigest` | verify/seal.go:137-168 | a digest iff the four fields can be canonicalized, and then the hash of that text |
| `Seal.SealBindsTheFields` | verify/seal.go:137-175 | two responses are sealed over the same text iff their four fields hold the same JSON values, and have the same digest iff they do or the two texts are a collision |
| `Seal.SealBindsTheDocuments` | verify/seal.go:137-175 | on the texts themselves: four JSON documents, however laid out and whatever follows them, can be sealed iff all their numbers are finite doubles, and two such responses have the same digest iff the documents denote the same four values or the sealed texts are a collision |
| `KeyStore.MergedBindings` | verify/scitt/root_keys.go:199-229 | existing bindings stay and a new kid is bound to its first parseable string |
| `KeyStore.MergedConcat` | verify/scitt/root_keys.go:199-229 | merging a concatenation is merging the parts in turn |
| `KeyStore.MergedIdempotent` | verify/scitt/root_keys.go:199-229 | merging the same strings again changes nothing |
| `KeyStore.MergeFrom` | verify/scitt/root_keys.go:199-229 | the merged store and all counters: the store grows by exactly Added, Added and Skipped add up to the input, collisions in order |
| `KeyStore.NewKeyStore` | verify/scitt/root_keys.go:39-58 | succeeds iff all strings parse to distinct kids; otherwise the first offender is reported |
| `KeyStore.StrictIffNothingSkipped` | verify/scitt/root_keys.go:39-58 | the strict constructor accepts exactly the lists a lenient merge skips nothing of |
| `KeyRefresh.RefreshableKeyStore.Commit` | verify/scitt/refreshable_key_store.go:133-158 | the lock section of a refresh: strings are merged into the snapshot of that moment |
| `KeyRefresh.RefreshableKeyStore.DoRefresh` | verify/scitt/refreshable_key_store.go:111-158 | a failed fetch leaves everything as it was |
| `KeyRefresh.RefreshableKeyStore.RefreshIfCooldownElapsed` | verify/scitt/refreshable_key_store.go:164-201 | run alone, a refresh happens iff there was none or the last is at least the cooldown before the first check, and the fetch succeeds; then the strings are merged and the time is that of the commit, otherwise nothing changes |
| `KeyRefresh.RunKeepsInv` | verify/scitt/refreshable_key_store.go:111-201 | the invariant of gate, log and cooldown over every interleaving |
| `KeyRefresh.ChecksPassIff` | verify/scitt/refreshable_key_store.go:174-196 | in every interleaving either check of an on-demand call passes iff every refresh completed before the caller read the time of the last is at least the cooldown old |
| `KeyRefresh.CallEndsRefreshed` | verify/scitt/refreshable_key_store.go:164-201 | main theorem on progress: in every interleaving an on-demand call ends with its own refresh, which holds what it fetched, or its fetch failed, or a refresh had completed less than the cooldown before one of its checks |
| `KeyRefresh.OnDemandRefreshesAreSpaced` | verify/scitt/refreshable_key_store.go:164-201 | in every interleaving two on-demand refreshes complete at least the cooldown apart, whatever background refreshes slip between |
| `KeyRefresh.TooSoonOnlyAfterBackground` | verify/scitt/refreshable_key_store.go:164-220 | in every interleaving an on-demand refresh follows another one sooner than the cooldown only if that one is a background refresh which completed after the caller re-read the time of the last |
| `KeyRefresh.SnapshotHoldsEveryRefresh` | verify/scitt/refreshable_key_store.go:133-158 | in every interleaving the snapshot is the initial store with the strings of all completed refreshes merged in order |
| `KeyRefresh.RefreshedKeysAreFound` | verify/scitt/refreshable_key_store.go:81-158 | no key of a completed refresh is ever lost to a later reader |
| `KeyRefresh.SnapshotOnlyGrows` | verify/scitt/refreshable_key_store.go:133-158 | a kid once found stays found with the same key, however the run goes on |
| `KeyRefresh.OnDemandMayFollowBackground` | verify/scitt/refreshable_key_store.go:164-220 | for every configuration a run in which an on-demand refresh commits right after a background one, too soon for every positive cooldown |
| `KeyRefresh.OnDemandCallIsRun` | verify/scitt/refreshable_key_store.go:164-201 | an on-demand call of the object is one of the interleavings, with the same fields left |
| `KeyRefresh.BackgroundCallIsRun` | verify/scitt/refreshable_key_store.go:111-158 | and so is a background refresh |
| `FifoCache.Cache.Get` | verify/scitt/cache.go:52-66 | the bound value until its expiry, nothing otherwise |
| `FifoCache.Cache.Insert` | verify/scitt/cache.go:70-83 | binds the key, keeps its place if it was there, then evicts |
| `FifoCache.Cache.Evict` | verify/scitt/cache.go:106-117 | drops exactly the excess from the front of the order |
| `FifoCache.Cache.RemoveFromOrder` | verify/scitt/cache.go:121-128 | cuts the key out of the slice and keeps the order of the rest |
| `FifoCache.Cache.Invalidate` | verify/scitt/cache.go:86-94 | removes the key from both the map and the order |
| `FifoCache.Cache.Len` | verify/scitt/cache.go:97-102 | the size of the map is the length of the order |
| `FifoCache.RunIsBoundedAndCurrent` | verify/scitt/cache.go:52-128 | after any run the order lists exactly the keys without repeats, at most maxEntries, and each key is bound to what was inserted last under it |
| `FifoCache.InsertionKeepsTheLast` | verify/scitt/cache.go:70-83 | after any run an insertion leaves its key in the cache with its entry, if there is any room; the keys are the last maxEntries of the old order with the key added, and all others keep their entries |
| `FifoCache.InvalidationTakesOnlyItsKey` | verify/scitt/cache.go:86-128 | an invalidation takes its key out of the map and cuts it out of the order, and nothing else changes |
| `FifoCache.StaysSinceBirth` | verify/scitt/cache.go:70-128 | a key is present exactly since the insertion that found it absent |
| `FifoCache.OrderIsByBirth` | verify/scitt/cache.go:70-83 | the order is that of first insertion: inserting again moves nothing |
| `FifoCache.EvictionTakesTheOldest` | verify/scitt/cache.go:106-117 | what an insertion drops was born before everything that was there and stays |
| `FifoCache.EvictionLeavesItFull` | verify/scitt/cache.go:106-117 | an insertion that drops any key at all leaves the cache exactly full |
| `HeaderSupplier.Supplier.CacheVerified` | verify/scitt/supplier.go:270-281 | afterwards receipt, token and expiry are all those of this verification; the supplier is healthy iff it was initialized |
| `HeaderSupplier.Supplier.RecordError` | verify/scitt/supplier.go:284-289 | after a failure the same headers are still handed out at every clock reading, but the supplier is not healthy |
| `HeaderSupplier.Supplier.CurrentHeaders` | verify/scitt/supplier.go:148-178 | with lazy initialization: the headers of one copy of the fields it leaves; after a first call whose fetch verifies the supplier is healthy and the headers are exactly those of that verification: the receipt iff it is not empty, the token iff it is not empty and before its expiry |
| `HeaderSupplier.Supplier.CopyHeaders` | verify/scitt/supplier.go:166-178 | an expired token and empty data are left out |
| `HeaderSupplier.Supplier.FetchAndVerify` | verify/scitt/supplier.go:248-289 | succeeds iff both fetches and both verifications do, and then the fields are what was fetched with the token's expiry; otherwise only the error changes; the flag never does |
| `HeaderSupplier.Supplier.InitOnce` | verify/scitt/supplier.go:210-244 | nothing once initialized; success leaves the supplier healthy with the fields of that verification, a failure leaves the flag and the three fields as they were and notes the error |
| `HeaderSupplier.Supplier.AutoRefresh` | verify/scitt/supplier.go:292-314 | one round: healthy with the fields of that verification if the fetch verifies, otherwise only the error changes |
| `HeaderSupplier.RunKeepsInv` | verify/scitt/supplier.go:148-314 | the invariant over every interleaving of callers, forced and automatic refreshes, clock and key changes |
| `HeaderSupplier.FieldsComeFromOneVerification` | verify/scitt/supplier.go:210-281 | in every interleaving receipt, token and expiry come from one and the same, the latest, successful verification or are all unset, and `initialized` implies they are set |
| `HeaderSupplier.EmittedHeadersAreSound` | verify/scitt/supplier.go:148-178 | in every interleaving the headers handed out are exactly those of the verification that was the latest when the fields were copied: the receipt iff it is not empty, the token iff it is not empty and the clock read is before its expiry; before any verification none |
| `HeaderSupplier.OneInitializerAtATime` | verify/scitt/supplier.go:210-244 | at most one thread is initializing |
| `HeaderSupplier.CurrentHeadersIsRun` | verify/scitt/supplier.go:148-244 | a call of the object is one of the interleavings, with the same fields left and the same headers handed out |
| `HeaderSupplier.RefreshIsRun` | verify/scitt/supplier.go:182-314 | and so are a forced refresh and one round of the automatic one |
| `Names.VersionRoundTrip` | models/version.go:23-62 | parsing a printed version gives it back, for all 32-bit triples |
| `Names.VersionsAccepted` | models/version.go:23-55 | exactly three numbers below 2^32 in decimal digits with dots between them are accepted, with or without a `v` |
| `Names.Compare` | models/version.go:69-89 | the sign orders versions as the numbers their three parts make up in base 2^32 |
| `Names.FqdnIsNormal` | models/fqdn.go:18-45 | an accepted name is lower-case, without a trailing dot, and has only valid labels |
| `Names.FqdnsAccepted` | models/fqdn.go:18-45 | exactly valid labels with dots between them and at most one dot behind are accepted, and handed out in lower case |
| `Names.FqdnIdempotent` | models/fqdn.go:18-45 | a normalized name is its own normal form |
| `Names.FqdnCharacters` | models/fqdn.go:18-51 | a normalized name consists of letters, digits, hyphens and dots |
| `Names.CacheKeysAreDistinct` | verify/cache.go:94-101 | cache keys are equal iff the names and the versions are |
| `Names.AtiNameRoundTrip` | verify/cert.go:173-209 | parsing a printed name recovers the version and the lower-case host, whatever the host and the case table are |
| `Names.AtiNamesAccepted` | verify/cert.go:173-209 | exactly `ati://v`, three numbers below 2^32, a dot and any host are accepted |
| `Names.FingerprintRoundTrip` | verify/cert.go:73-107 | parsing a printed fingerprint gives the digest back |
| `Names.FingerprintsAccepted` | verify/cert.go:73-107 | exactly one of four prefixes and the digits of the digest in either case are accepted |
| `Hex.DecodesExactly` | verify/cert.go:73-107 | exactly the printed bytes are decoded, in either case |
| `Names.RenewalNeedsCurrent` | verify/cert.go:120-152 | a fingerprint matches iff it is the current one, or the previous one while the current one is not blank |
| `HostNames.SuffixMatchIsLabelRule` | verify/cert.go:339-354 | for all strings and every case table the suffix comparison is the label-wise rule of section 6.4.3 of RFC 6125 on lower-case names without one trailing dot; empty names match nothing |
| `HostNames.CoversHost` | verify/cert.go:323-330 | true iff some SAN matches |
| `Identity.AtiNames` | verify/cert.go:372-382 | the parseable ati:// URIs, in order |
| `Identity.FirstAtiName` | verify/cert.go:358-367 | the first of them |
| `Identity.FirstNameIs` | verify/cert.go:358-367 | what it returns is what the first URI says that parses; nothing iff none does |
| `Identity.ServerVerdict` | verify/verify.go:252-304 | a server certificate is accepted iff the status is ACTIVE, WARNING or DEPRECATED, the fingerprint attested, the record speaks for the name, and a SAN covers the access host label by label, where an empty access host or a certificate without DNS names passes; otherwise it is refused for the first of these that fails, with what was expected and what was there |
| `Identity.VerifyClientWithResponse` | verify/verify.go:477-520 | the loop over the certificate's names decides as the checks in order do, with the outcome of the first that fails |
| `Identity.ClientVerdict` | verify/verify.go:477-520 | a client certificate is accepted iff the status is ACTIVE, WARNING or DEPRECATED, the fingerprint attested, and some well-formed ati:// URI of it is the attested name up to case; otherwise it is refused for the first of these that fails |
| `BadgeCache.Cache.GetByFqdn` | verify/cache.go:104-119 | the entry until its expiry |
| `BadgeCache.Cache.GetByFqdnVersion` | verify/cache.go:122-137 | the same by name and version |
| `BadgeCache.Cache.GetStaleByFqdn` | verify/cache.go:187-202 | the entry until the allowed staleness after its expiry |
| `BadgeCache.Cache.GetStaleByFqdnVersion` | verify/cache.go:206-220 | the same by name and version |
| `BadgeCache.Cache.Insert` | verify/cache.go:140-160 | the entry is bound for the time to live, then the cache is cleaned |
| `BadgeCache.Cache.InsertForVersion` | verify/cache.go:163-183 | the same by name and version |
| `BadgeCache.Cache.Clear` | verify/cache.go:223-229 | both maps are empty |
| `BadgeCache.Cache.Cleanup` | verify/cache.go:280-322 | in every iteration order: a part of the retained entries, as large as the capacity allows, versioned ones given up last |
| `BadgeCache.Cache.Purge` | verify/cache.go:284-296 | exactly the entries expired beyond the retention go |
| `BadgeCache.Cache.Evict` | verify/cache.go:303-320 | exactly as many keys go as are to be removed, or all of the map |
| `BadgeCache.CleanupDropsOnlyTheExcess` | verify/cache.go:280-322 | an entry is retained iff it expired at most the retention ago; a retained entry is dropped only over capacity, then exactly the excess is, and the versioned map is touched only once the other is empty |
| `BadgeCache.RunIsBoundedAndLatest` | verify/cache.go:140-322 | after every run both maps together hold at most MaxEntries, the keys are names, and each is bound to what was stored for it last |
| `BadgeCache.HitIsRecent` | verify/cache.go:104-220 | exact condition: a lookup hits iff the entry has not been dropped and was stored last at most the time to live ago, a stale lookup with the staleness added, and the hit is what was stored last; by name and by name and version |
| `BadgeCache.StoredEntryStays` | verify/cache.go:140-160 | exact condition: in every iteration order the entry just stored is still there iff the retention keeps it and all that is kept fits the capacity |
| `BadgeCache.StoredVersionStays` | verify/cache.go:163-183 | a versioned entry also stays while dropping unversioned ones makes up the excess, and only then |
| `BadgeCache.NewEntryMayGo` | verify/cache.go:298-320 | at a capacity of one the entry just stored may be the one removed |
| `BadgeCache.Cache.RefreshExpiring` | verify/cache.go:253-275 | a round that nothing comes between is a sequence of stores, each under a key within the threshold of its expiry, with what was fetched for it; and every such key for which anything was fetched is stored |
| `BadgeCache.StoresTouchOnlyTheirKeys` | verify/cache.go:253-275 | such a sequence adds no key and changes only the keys it stores, each to what was stored for it |
| `Verifier.AnsVerifier.VerifyServer` | verify/verify.go:121-159 | a fresh entry decides the call unless it judges the fingerprint another one, and leaves the cache alone; otherwise without a cache the uncached decision, with one the call as `VerifierScenes.CallIsRun` finds it among the interleavings |
| `Verifier.AnsVerifier.VerifyClient` | verify/verify.go:322-380 | the same for clients, where a fresh entry always decides (`VerifyClientFor`); a certificate without subject, ati:// name or valid host is refused with the cache untouched |
| `Verifier.AnsVerifier.Prefetch` | verify/verify.go:173-190 | the same for prefetching: a fresh entry is handed out; otherwise what is left to the caller is a response, an error, or neither |
| `Verifier.AnsVerifier.FetchServerResponse` | verify/verify.go:219-249 | the response, or the outcome after the failure policy with the stale entry there is |
| `Verifier.AnsVerifier.FetchClientResponse` | verify/verify.go:431-474 | the same by version |
| `Verifier.ClientSubjectIs` | verify/verify.go:322-350 | a client certificate speaks for the host and version of its first ati:// name, if it has a DNS name or a common name and the host is a domain name |
| `Verifier.NoSubjectIff` | verify/verify.go:322-350 | and is refused without any of these, each with its own fault |
| `Verifier.UncachedReplies` | verify/verify.go:219-249 | without a cache a call replies by the DNS record for its name, or name and version, and the log entry at the rewritten URL; of an error the policy makes the error itself or lets the caller through |
| `Verifier.PrefetchOfNeither` | verify/verify.go:173-190 | a prefetch that nothing comes between returns neither a response nor an error iff nothing fresh is cached, the fetch breaks, and the policy is open, or open with cache while a stale entry is there |
| `Verifier.DaneOnly` | verify/verify.go:64-88 | DANE turns a verified outcome into a rejection naming the same response, or adds its result to it iff that is a verification, and leaves every other outcome as it is |
| `Verifier.ServerJudged` | verify/verify.go:161-169 | a server outcome judged on a response: what verified and mismatch then say about that response |
| `Verifier.ClientJudged` | verify/verify.go:382-390 | the same for clients, and a mismatch iff the fingerprint check fails |
| `VerifierRuns.RunKeepsInv` | verify/verify.go:121-190 | the invariant over every interleaving of lookups, DNS and log queries, stores, stale lookups, DANE checks, refresh rounds, clearings, clock settings and world changes |
| `VerifierRuns.ReachableIsSound` | verify/verify.go:121-190 | it holds in every reachable state |
| `VerifierRuns.CacheIsTransparent` | verify/verify.go:121-190 | main theorem: while nothing outside changes every server call, client call and prefetch of every interleaving returns what it returns without a cache, under every policy, clock, eviction and map order |
| `VerifierRuns.RepliesFollow` | verify/verify.go:121-190 | main theorem: in every interleaving each call returns exactly what its lookup or else its queries lead to; a server call is decided by the entry its lookup found iff that judges no fingerprint mismatch, the other calls by any entry, whatever DNS and log answer; a failed fetch leaves what the policy says |
| `VerifierRuns.LookupFindsIff` | verify/cache.go:104-137 | in every reachable state the lookup of a call finds the entry held for it iff that was stored at most the time to live ago |
| `VerifierRuns.StaleLookupFindsIff` | verify/cache.go:187-220 | the failure policy finds it iff it was stored at most the time to live and the staleness ago |
| `VerifierRuns.StoredResponseIsFound` | verify/cache.go:104-183 | a response stored by a call, as long as it stays, is found by every call about the same subject that begins within the time to live, and by none later |
| `VerifierRuns.ServerOutcomesAreSafe` | verify/verify.go:121-159 | main theorem: in every interleaving with a changing world and under every policy a verified server rests on a response that vouches for it, fetched by queries of that call or stored for that name before its lookup and within the time to live; a mismatch only on a response fetched in that call; skipping only under an open policy after a failure in that call |
| `VerifierRuns.ClientOutcomesAreSafe` | verify/verify.go:322-390 | the same for clients, by the host and version of the first ati:// name; a mismatch is judged on a cached response, stored before the lookup and within the time to live, iff the lookup found a fresh one that mismatches |
| `VerifierRuns.FailClosedSucceedsOnlyVerified` | verify/verify.go:33-43 | under FailClosed a server call that succeeds has verified the server |
| `VerifierRuns.PrefetchesOfNeither` | verify/verify.go:173-190 | in every interleaving a prefetch returns neither a response nor an error iff its fetch failed and the policy is open, or open with cache with a stale entry found |
| `VerifierRuns.StoresAreAccounted` | verify/cache.go:253-275 | in every interleaving a call stores only what it fetched for its key, and a refresh round only what it was given for a name whose entry, stored earlier, it had found due |
| `VerifierRuns.CacheIsAccounted` | verify/cache.go:140-322 | in every interleaving each entry was stored for the key it is under and both maps are within the capacity |
| `VerifierScenes.CallIsRun` | verify/verify.go:121-190 | a call of the object is one of the interleavings, with the same reply and the same cache left |
| `VerifierScenes.RoundMayBringBack` | verify/cache.go:253-275 | a run in which the cache is cleared during a refresh round and the round then stores a cleared key again |
| `VerifierScenes.RoundAddsWhatLeft` | verify/cache.go:253-275 | exact condition: when a round comes to store a name, the name is not in the cache iff it left after the round collected it, by a clearing or by the cleanup of a store, and was not put back |
| `VerifierScenes.RoundStorePuts` | verify/cache.go:253-275 | the store then puts it in, unless its own cleanup drops it |
| `VerifierScenes.RenewedClientMayBeRejected` | verify/verify.go:352-361 | for every name, version and two fingerprints: a run in which a renewed client certificate is rejected on a cached response although the log vouches for it |
| `VersionPolicy.ResolveLatest` | ati/version_policy.go:78-95 | the greatest record of the answer, or an error |
| `VersionPolicy.ResolveSatisfying` | ati/version_policy.go:97-125 | the greatest record that satisfies the constraint, or an error |
| `VersionPolicy.FindExact` | ati/version_policy.go:127-142 | the first record of the version, or an error |
| `VersionPolicy.ResolveExact` | ati/version_policy.go:58-76 | the same, or an error for an expression that is no version |
| `VersionPolicy.FilterByProtocol` | verify/ati_record.go:134-149 | the records without a protocol or with that protocol under case folding, in order, for every case table |
| `VersionPolicy.ResolveVersionForProtocol` | ati/version_policy.go:35-56 | the choice of the policy among the records that serve the protocol |
| `VersionPolicy.GreatestIsOptimal` | ati/version_policy.go:78-125 | the loop keeps a record that no admissible one beats by version, then least protocol and URL; nothing is kept iff none is admissible |
| `VersionPolicy.ChoiceIsOptimal` | ati/version_policy.go:35-155 | a record is chosen iff one is admissible; no admissible one is of a greater version, and except where one version is named none of the same version has a lesser protocol, or the same protocol and a lesser URL |
| `VersionPolicy.FailuresAre` | ati/version_policy.go:35-142 | each failure has its own cause, and without one of them a record is chosen |
| `VersionPolicy.OrderNeverMatters` | ati/version_policy.go:78-155 | every permutation of the answer leads to the same version, protocol and URL, or to the same error, where a range or the latest is asked for |
| `VersionPolicy.NamedVersionDependsOnOrder` | ati/version_policy.go:58-76 | where one version is named, the choice is independent of the order iff no two admissible records differ in protocol or URL |
| `VersionPolicy.ExactFollowsTheAnswer` | ati/version_policy.go:66-74 | two records, one per protocol: EXACT returns whichever comes first |

## Where code and intent part

- The DNSSEC wildcard owner for a signature over zero labels is "*..", not "*." (`DnsNames.WildcardOwnerOfZeroLabels`;
  exactly then, `DnsNames.WildcardOwnerIsRfc4035`).
- `parentOf` stops at an escaped dot inside the first label (`DnsNames.ParentOfHiddenDot`; exactly then,
  `DnsNames.ParentDropsOneLabel`).
- The KSK that signs a key set and the KSK the parent's DS or the anchor names may be two different keys
  (`Dnssec.TwoKsksPartWays`; exactly when a key set has two KSKs, `Dnssec.StrictnessNeedsSoleKsk`, or along a walk,
  `Dnssec.StrictIffHeads`).
- The cap of 63 path elements turns away genuine proofs above 2^63 leaves (`InclusionProofs.CapRejectsLeftHalfAbove2To63`).
- `JCSCanonicalize` decodes the first JSON value and ignores what follows it (`Jcs.LayoutNeverMatters` allows any tail).
- The canonical text is not always that of RFC 8785: `<`, `>`, `&`, U+2028 and U+2029 are escaped (`Rfc8785.MarkupIsEscaped`), and
  names are not ordered by UTF-16 code units (`Rfc8785.NamesInOtherOrder`); exactly when, `Rfc8785.ConformsExactlyWhen`.
- The cooldown holds between on-demand refreshes; a background refresh may complete right before an on-demand one
  (`KeyRefresh.OnDemandMayFollowBackground`; only then, `KeyRefresh.TooSoonOnlyAfterBackground`).
- The comment on tie-breaking says the result does not depend on the order of the DNS answer; where the request names one
  version it does (`VersionPolicy.ExactFollowsTheAnswer`; exactly when, `VersionPolicy.NamedVersionDependsOnOrder`).
- `Prefetch` may return neither a response nor an error (exactly when, `VerifierRuns.PrefetchesOfNeither`).
- A server fingerprint mismatch on a cached response leads to a new fetch. A client mismatch on a cached response is
  returned as it is, until the entry expires (`VerifierScenes.RenewedClientMayBeRejected`; exactly when,
  `VerifierRuns.ClientOutcomesAreSafe`).
- The badge cache may evict the very entry it just stored (`BadgeCache.NewEntryMayGo`; exactly when,
  `BadgeCache.StoredEntryStays` and `BadgeCache.StoredVersionStays`).
- A refresh round may bring back an entry that was cleared after the round collected its key
  (`VerifierScenes.RoundMayBringBack`; exactly when, `VerifierScenes.RoundAddsWhatLeft`); it never stores under a key it had
  not found due (`VerifierRuns.StoresAreAccounted`).

## Left out

- HTTP, DNS sockets, TLS, PEM and X.509 handling, the registry client, logging and the command-line examples.
- ECDSA, RSA, SHA-256, CBOR, base64, the semver library and C2SP key parsing are parameters. A record's version is three
  32-bit numbers whose printed form the semver library always reads, so the branch that skips an unreadable version is not modelled.
- IEEE 754 arithmetic: doubles are bit patterns with a shortest decimal, and `Jcs.Lawful` states what is used of `strconv` (both
  spellings of that decimal reparse to the same double, the band from 1e-6 to 1e21 is where its point stands, zeros in front
  of an exponent do not matter).
- Strings are sequences of code points; invalid UTF-8 is not modelled.
- Identity.ServerVerdict: compares names with the case table of ASCII, where Go's `EqualFold` also equates a few letters outside ASCII
  with ASCII ones; the round trip of ati:// names, the host matching and the protocol filter are stated for every case table.
- Identity.ClientVerdict: the same case table decides whether a URI of the certificate is the attested name.
- Identity.AtiNames: hosts are lower-cased with the table of ASCII, where Go lower-cases all of Unicode.
- Identity.FirstAtiName: likewise, and so `Verifier.ClientSubject`, which takes the host from it.
- The texts of errors and warnings; errors are constructors. Nil records in a DNS answer and nil log responses.
- `VerifyWithScitt`, receipts and status tokens beyond the supplier's fields, COSE, OCSP, SVCB, CRLs, trust index, agent cards, the
  policy ladder of `ati/server.go` and `ati/mtls_client.go`, and the steps inside DANE verification: they mostly read branches.
- The key store's mode without a client, in which a refresh does nothing, and the refresh tickers and jitter.
- `cacheEntry` repeats the expiry of the badge it wraps; the model keeps one.
- Collecting the keys that are due reads the clock once per entry in the code and once for all in the model.
- Verifier.AnsVerifier.VerifyServer: the method is one call that nothing comes between; `VerifierRuns` has the interleavings, of which
  `VerifierScenes.CallIsRun` shows the method to be one. Likewise VerifyClient and Prefetch.
- BadgeCache.Cache.RefreshExpiring: the method is one round that nothing comes between, in which fetches depend on the key alone;
  `VerifierRuns` has the rounds whose steps interleave with everything else.
- Dnssec.SecureIffChain: the resolver answers each question the same way throughout a walk, because the code asks for the DNSKEY set twice.
- FifoCache.Cache.Insert: one class stands for the receipt cache and the status-token cache, which differ in where the expiry comes from.
