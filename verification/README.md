# Proofs about the ACME server and the administration console

This project models four parts of the service and proves what they promise.

- **The ACME server** (RFC 8555, with renewal information of RFC 9773):
  `acme/acme.ts`, `acme/acme_store.ts` and `acme/acme_jws.ts`. The codecs
  (`Base64Url`, `CertId`, `Nonce`), the CSR against its order (`CsrNames`), the
  stores of one realm (`AcmeStore`, `OrdersList`, `NonceHistory`), every
  interleaving of one process's requests (`AcmeRun`, `ProcessGuard`,
  `AcmeSafety`, `ProcessGap`), which event changes what and what a client can get
  done (`AcmeChanges`, `AcmeProgress`), and finalize and nonces on any number of nodes
  with delayed copies (`OnceGuard`, `FinalizeCluster`, `NonceCluster`).
- **The console's role register**, `admin-ui/admin_rbac.ts`: what grant and
  revoke do to a group (`Roster`), who holds a role and whether the console is
  open (`ConsoleRoles`), the bootstrap window over every run (`ConsoleWindow`),
  and the realm binding (`RealmBinding`).
- **The certificate catalogue** of `admin-core/certificate_views.ts`: the
  catalogue and its two-stage lookup (`CertificateCatalogue`), the content-keyed
  memo and the list drawn through it (`CertificateMemo`, `Paging`).
- **The service/realm line**, `admin-ui/admin_scope.ts` (`AdminScope`).

`Basics`, `Text` and `Wrappers` are shared. A maintainer checks everything with
`dafny verify dfyconfig.toml`.

## How it is modelled

A handler that waits is several events, one for each synchronous stretch, and a
run is any sequence of events; an event that its guard forbids changes nothing.
A claim reaching the table and the handler going on with it are two events, and so
are a refused issuance and the release of its claim. Time is one clock of
milliseconds that never goes back. What the code keeps in
module-level maps and object fields is a class whose methods are proved against
a function of the old state (`AcmeStore.Realm`, `NonceHistory.SpentNonces`,
`ConsoleWindow.Register`, `RealmBinding.Register`,
`CertificateCatalogue.Catalogue`, `CertificateMemo.Memo`), and the runs are
about those functions.

These are parameters: the MAC (asked only not to confuse the two inputs of the
statement at hand), random identifiers (fresh where one is made), the host, IP
and e-mail syntaxes, `entryFromUri`, issuance and `bindEabOnce` (either may
answer either way), the LDAP directory's answers, certificate parsing and
digests, the scheduler's job table and the risk catalogue.

## What turned out to hold only so far

- **A thirty-day order.** A claim lasts at most thirty days
  (`cluster/cluster_claims.js:71`) and `acme.orderLifetimeS` may be thirty days,
  so the minute by which the claim should outlive the order is cut off. One
  certificate an order holds in every run exactly when a request claims within
  60,001 ms of looking at the order and the lifetime leaves that much of the
  thirty days; with a claim within the minute the exact bound on the setting is
  2,591,940 s (`FinalizeCluster.OneEachIffGuarded`, `OrderLifetimeCovered`). The
  run that fails by the lifetime needs a node whose copy of the order is a month
  old; in one process, whose requests see each other's writes, the lifetime does
  not matter and the gap alone decides (`ProcessGap.AgreeIffPrompt`).
- **The gap itself.** With more than 60,001 ms between the look and the claim two
  certificates are issued for an order, and between the check and the claim a
  nonce is accepted twice (`NonceCluster.AcceptedOnceIffGuarded`).
- **A finalize that outlasts its order.** `saveOrder` puts an order under its id
  whether or not it is still stored. One that was pruned meanwhile, a day after it
  expired, comes back without its authorizations, and exactly then
  (`AcmeStore.SavedBack`).
- **One replacement a certificate.** new-order asks that nothing has replaced the
  certificate yet and finalize does not ask again, so once it is marked no order
  may replace it (`AcmeChanges.NeverReplacedAgain`), but two orders placed before
  either is finalized both do, and the second one's mark takes the place of the
  first's (`BothMayReplace`, `MarkedAnewIff`).
- **One account a key.** new-account waits for `bindEabOnce` between looking the
  key up and creating the account. Every account is found by its key through a
  run exactly if each creation still finds the key free
  (`AcmeSafety.OneAccountPerKey`); two requests at once make two accounts
  (`TwoAccountsOneKey`). An external account binding is always asked for and
  `bindEabOnce` claims its key id, so the two requests carry two key ids, or the
  second comes between the first one's binding and its account. The other
  direction of the index never fails.
- **Serials of odd length.** "07f" and "7f" are one number and get two certIDs
  (`CertId.OddSerialSplits`). For any two certificates, `CertIdInjective` says when
  they share one: same key identifier, same number, and both serials spelled
  `Long` (odd, still with a zero in front of a digit below eight) or neither.
  `ContentIsDer` says that those, and the empty one, are the serials without DER.
- **A nonce's expiry past 2^32** is written truncated and MACed whole, so it is
  refused from the start (`Nonce.WrappedExpiryIsForged`).
- **Revoking by another name.** The register compares a `memberUid` with the
  name it was given, not with the person's entry. Someone revoked by an alias
  keeps the role through a `memberUid` under their other name, and exactly then
  (`Roster.StillListedIff`, `RevokedByAnotherName`, `ConsoleRoles.RevokeTakes`).
  The comment at `admin-ui/admin_rbac.ts:1236-1238` says the two answers agree;
  `Roster.FoundAndListed` sets them side by side.
- **Granting to somebody found by name only.** For the same reason a grant can
  find a `memberUid` of its person's name, change nothing, and leave a person
  whose entry is elsewhere without the role (`Roster.GrantFindsButUnlisted`).
- **Grant then revoke** restores a group exactly, except that an empty `member`
  attribute goes (`Roster.GrantThenRevoke`, `EmptyMemberGoes`).
- **An empty roster with somebody on it.** `rolesOf` takes a group by its name
  as well as by its DN, so a group elsewhere with a role group's name gives the
  role while the roster is empty (`ConsoleRoles.HeldOffTheRoster`,
  `HeldWithAnEmptyRoster`).
- **A role's own group named for the other role**: a write group whose `cn` is
  the read group's gives Admin Read alone (`ConsoleRoles.OwnGroupGives`,
  `WriteGroupNamedForRead`).
- **An authority's certificate that a person holds too** is shown without the
  person: the lookup stops at the authorities
  (`CertificateCatalogue.StagesAgree`, `HolderNotShown`).

## Model

| member | source | states |
|---|---|---|
| `Base64Url.DecodeIffEncode` | acme/acme_jws.ts:313-345 | the strict decoder accepts non-empty text and answers some bytes exactly if the text is those bytes' own encoding |
| `Base64Url.AcceptedIffCanonical` | acme/acme_jws.ts:313-333 | acceptance said of the characters: the alphabet, a length that can occur, zero trailing bits |
| `Base64Url.EncodeInjective` | acme/acme_jws.ts:340-345 | two byte strings never share an encoding |
| `Base64Url.EncodeShape` | acme/acme_jws.ts:340-345 | the encoding's length, and that it is of the alphabet without padding |
| `Base64Url.EncodeWrites` | acme/acme_jws.ts:340-345 | the text, as digits of base 64, writes the number the bytes write in base 256, with zero bits after it to fill the last character |
| `Base64Url.AlphabetIs` | acme/acme_jws.ts:313-345 | the sixty-four digits are the capital letters, the small ones, the ten figures, minus and underline, in this order, and each is read as its own place |
| `Base64Url.EmptyDecoded` | acme/acme_jws.ts:313-323 | the empty text is no bytes where it is allowed, and refused where it is not |
| `CertId.SerialContentBytes` | acme/acme_jws.ts:1007-1021 | the step-by-step stripping, padding and sign octet is the content octets the other members speak of |
| `CertId.HexOfOne` | acme/acme_jws.ts:1010-1011 | a digit or small letter is kept, a capital one becomes small, anything else goes |
| `CertId.HexByPieces` | acme/acme_jws.ts:1010-1011 | and so character by character |
| `CertId.DigitWorth` | acme/acme_jws.ts:1015-1015 | the digits are worth zero to fifteen |
| `CertId.ContentKeepsValue` | acme/acme_jws.ts:1007-1021 | for every text, the octets denote the number the hex digits do |
| `CertId.ContentIsDer` | acme/acme_jws.ts:1007-1021 | exactly which serial texts give minimal non-negative DER (section 8.3 of X.690): those with a digit that are not spelled `Long` |
| `CertId.LongContent` | acme/acme_jws.ts:1007-1021 | a long spelling gives the number's own octets with one zero in front |
| `CertId.EvenSerialIsDer` | acme/acme_jws.ts:1007-1021 | every serial with an even, non-zero number of digits does |
| `CertId.DerUnique` | acme/acme_jws.ts:1007-1021 | a number has one DER content |
| `CertId.ParseWritten` | acme/acme_jws.ts:1031-1064 | two byte strings joined by a dot are read back when both are non-empty and the text is within 512 characters, and refused otherwise |
| `CertId.ParsedIffWritten` | acme/acme_jws.ts:1045-1064 | a text is accepted exactly if it is such a text |
| `CertId.RoundTrip` | acme/acme_jws.ts:1031-1064 | when a certificate's own certID parses, and that it gives back the same key identifier and the same number |
| `CertId.CertIdInjective` | acme/acme_jws.ts:1031-1037 | for every two serials, certIDs are equal exactly when key identifier and number are and both serials are spelled long or neither |
| `CertId.OddSerialSplits` | acme/acme_jws.ts:1007-1037 | a concrete serial whose two spellings give two certIDs |
| `CertId.ReadThenWritten` | acme/acme_jws.ts:1031-1064 | an accepted certID is what the server itself writes exactly when its serial is DER |
| `Nonce.MintNonce` | acme/acme_jws.ts:803-818 | the nonce reads back as version one, the last four bytes of its expiry, the random part and the tag over the whole expiry |
| `Nonce.ExpiryIs` | acme/acme_jws.ts:803-808 | the expiry is the mint second and the lifetime asked for, 300 seconds for zero and one at least, and so yet to come |
| `Nonce.AcceptedIffMade` | acme/acme_jws.ts:830-853 | a nonce is accepted with an identity and expiry exactly if it is the encoding of those with the scope's tag and the expiry second has not come |
| `Nonce.ExpiredIffMade` | acme/acme_jws.ts:830-853 | it is "expired" exactly if it is such an encoding whose second has come |
| `Nonce.MalformedIff` | acme/acme_jws.ts:830-843 | "malformed" exactly if it is not the text of thirty-seven bytes of version one; "forged" is the rest |
| `Nonce.MintedIsAccepted` | acme/acme_jws.ts:803-853 | a minted nonce is accepted in its scope until its expiry second and answered as expired from then on |
| `Nonce.WrappedExpiryIsForged` | acme/acme_jws.ts:803-853 | an expiry past four bytes is refused at once |
| `Nonce.ScopeInjective` | acme/acme_jws.ts:768-792 | realm ids without a newline and cells do not run together in the MACed text |
| `Nonce.AcceptedWasMinted` | acme/acme_jws.ts:768-853 | accepted with a tag the service made means minted for that realm, cell, expiry and random part |
| `OnceGuard.ClaimOutlives` | acme/acme.ts:2064-2073 | under the two bounds a claim lapses no earlier than the last request that looked in time can claim |
| `OnceGuard.DoKeeps` | acme/acme.ts:2035-2168 | every step of look, claim, keep, release and sweep keeps at most one owner an item |
| `OnceGuard.Answered` | cluster/cluster_claims.js:69-71 | an unlapsed claim refuses the request that asks; otherwise the claim is its own for as long as it asked, a second at least and thirty days at most |
| `OnceGuard.AskedFor` | acme/acme.ts:2064-2068 | a finalize asks until a minute past the deadline and for a minute at least |
| `OnceGuard.FreedIsItsOwn` | cluster/cluster_claims.js:356-374 | a release frees the request's own claim and no other's |
| `OnceGuard.ClearingIsSilent` | cluster/cluster_claims.js:67-75 | clearing lapsed claims changes no answer |
| `ProcessGuard.LocalStep` | acme/acme.ts:2035-2168 | in one process, where a look finds nobody at work, every step keeps at most one request with an item under the gap bound alone |
| `FinalizeCluster.AtMostOneCertificate` | acme/acme.ts:2035-2168 | over every interleaving on any number of nodes with stale copies: at most one issuance an order, and "valid" is shown only of an order with one |
| `FinalizeCluster.LastIsCurrent` | acme/acme.ts:2101-2168 | in every run the last status written of an order is "valid" exactly if it has a certificate, "processing" exactly if a request is at work on it, and "ready" otherwise |
| `FinalizeCluster.LooksAtReady` | acme/acme.ts:2035-2045 | a node begins to finalize exactly an unexpired order it knows as "ready" |
| `FinalizeCluster.OneEachIffGuarded` | acme/acme.ts:2035-2168 | that holds in every run exactly under the two time bounds |
| `FinalizeCluster.OrderLifetimeCovered` | common/config.js:7378-7409 | in terms of `acme.orderLifetimeS`, exactly up to 2,591,940 with a claim within the minute |
| `NonceHistory.SpendRemembers` | acme/acme_store.ts:598-630 | no unexpired spend is forgotten, none comes back, a spend is remembered and refused from then on |
| `NonceHistory.SpentIff` | acme/acme_store.ts:598-630 | a nonce is spent exactly if it is not in the history and, where there is a bound, fewer unexpired spends than it are |
| `NonceHistory.SpendDrops` | common/cache_registry.js:262-293 | below the bound nothing is dropped, at it exactly the expired |
| `NonceHistory.SpendBounded` | acme/acme_store.ts:605-627 | a spend never takes the history past its bound |
| `NonceHistory.SpentNonces.FindStale` | common/cache_registry.js:262-274 | the walk finds exactly the expired entries |
| `NonceHistory.SpentNonces.DropExpired` | acme/acme_store.ts:147-150 | the eject job drops exactly what a check refuses already |
| `NonceHistory.SpentNonces.MakeRoom` | common/cache_registry.js:262-293 | with the refusing policy: below the bound nothing goes, at it exactly the expired entries, and it refuses exactly if the history is still full |
| `NonceHistory.SpentNonces.SpendNonce` | acme/acme_store.ts:598-630 | the map updated in place is the history the lemmas are about, and a nonce is spent exactly if it is not there and the unexpired spends are below the bound |
| `NonceCluster.OncePerNode` | acme/acme_store.ts:598-630 | in every run, without claims, no node spends a nonce twice: every accepted unexpired nonce is in its history |
| `NonceCluster.FreshIsAccepted` | acme/acme_store.ts:598-679 | from any state of any run a nonce that is minted, unexpired, not in the node's history, within its bound and unclaimed is accepted, and is in that history then |
| `NonceCluster.FailedIsOver` | acme/acme_store.ts:660-679 | where the claims cannot be asked nothing is accepted, and the nonce stays spent |
| `NonceCluster.HistoryBounded` | acme/acme_store.ts:598-630 | in every run a process nothing replicates into holds no more than its setting |
| `NonceCluster.AcceptedOnce` | acme/acme_store.ts:660-679 | over every interleaving on any number of nodes a nonce is accepted at most once, under the two time bounds |
| `NonceCluster.AcceptedOnceIffGuarded` | acme/acme_store.ts:660-679 | and in every run exactly under them |
| `NonceCluster.NonceLifetimeCovered` | common/config.js:7378-7409 | for every value `acme.nonceLifetimeS` may have, exactly when claims come within 60,001 ms of their checks |
| `CsrNames.NormalIdempotent` | acme/acme_jws.ts:1185-1208 | a normalised identifier normalises to itself |
| `CsrNames.NormalIs` | acme/acme_jws.ts:1185-1208 | exactly which values each type takes, a host name whatever its case, and what they become: a host name and an address lower case, the others themselves |
| `CsrNames.KeyInjective` | acme/acme.ts:1137-1140 | the compared key tells identifiers apart across types |
| `CsrNames.CsrNamesProblem` | acme/acme.ts:1133-1217 | no problem exactly if each name of the CSR is well-formed and spells an identifier of the order (a host name and an e-mail address in any case), each URI names one as an entry of the account's kind, UPNs are only on smartcard-logon, the common name can be one, and each identifier is named, by the common name only the one of the earliest type it can be; otherwise which names are wrong or missing |
| `CsrNames.ExactlyIs` | acme/acme.ts:1133-1217 | that rule, and the comparison of normalised sets the code makes, are the same |
| `CsrNames.SameKeysSameNames` | acme/acme.ts:1133-1217 | comparing key sets is comparing identifier sets |
| `CsrNames.RefusedIffUnreadable` | acme/acme.ts:1144-1197 | a name is refused before the comparison exactly if it is none an order can hold |
| `CsrNames.ExactCsrAccepted` | acme/acme.ts:1133-1217 | the CSR naming exactly the order's identifiers is accepted |
| `CsrNames.ReadIdentifiers` | acme/acme.ts:1837-1887 | new-order stores, for each asked for, a well-formed value of its type as stated for that type, no two alike (two e-mail addresses are if they differ in case only); or the first that is malformed or a repeat; or else how many types are not known |
| `CsrNames.OrderCanBeFinalized` | acme/acme.ts:1837-1887 | whatever new-order stores, the CSR made from it is accepted |
| `CsrNames.AskedInAnyCase` | acme/acme.ts:1133-1217 | a CSR that spells the identifiers as they were asked for, host names and e-mail addresses in any case, is accepted |
| `CsrNames.FinalizableIff` | acme/acme.ts:1133-1217 | some CSR is accepted for an order exactly if all but one of its entry identifiers are named by URIs and the common name can be that one |
| `CsrNames.StoredOrderIsFinalizable` | acme/acme.ts:1056-1082 | so one is for every order new-order stores, whose entry identifier is the account's own |
| `AcmeStore.CreateKeepsIndex` | acme/acme_store.ts:255-270 | creating keeps the key index sound, and complete exactly if the key was free |
| `AcmeStore.RekeyKeepsIndex` | acme/acme_store.ts:326-340 | a rekey keeps it sound, finds the account by the new key and not by the old, leaves every other account's other keys, and frees exactly the old key where it was complete |
| `AcmeStore.PruneExact` | acme/acme_store.ts:468-487 | pruning removes exactly the never-valid orders more than a day past expiry with their own authorizations, and no other order loses one |
| `AcmeStore.NewOrderOwned` | acme/acme_store.ts:369-431 | a new order's authorizations exist, each once, and are shared with no other order |
| `AcmeStore.SavedBack` | acme/acme_store.ts:453-487 | saving an order that was pruned meanwhile leaves a stored order without its authorizations, exactly if it had any |
| `AcmeStore.RenewalAnswers` | acme/acme_store.ts:499-556 | the renewal index answers only with a record carrying the certID asked for, the latest recorded |
| `AcmeStore.Realm.NewAccount` | acme/acme_store.ts:255-270 | the maps after a new account |
| `AcmeStore.Realm.FindByThumbprint` | acme/acme_store.ts:293-300 | the lookup by key thumbprint is the index's answer |
| `AcmeStore.Realm.Rekey` | acme/acme_store.ts:326-340 | the guarded delete and set, in place |
| `AcmeStore.Realm.FindDead` | acme/acme_store.ts:468-480 | the walk finds exactly the orders to prune |
| `AcmeStore.Realm.Prune` | acme/acme_store.ts:468-487 | the deletions one by one leave what pruning is said to leave |
| `AcmeStore.Realm.NewOrder` | acme/acme_store.ts:416-431 | prune, store, and of the account's order ids with the new one behind them the last thousand |
| `AcmeStore.Realm.PlaceOrder` | acme/acme.ts:1962-1985 | new-order's authorizations and then its order |
| `AcmeStore.Realm.Record` | acme/acme_store.ts:499-512 | a certificate recorded and indexed |
| `AcmeStore.Realm.FindByCertId` | acme/acme_store.ts:549-556 | the lookup by certID is the index's answer |
| `AcmeSafety.IndexAlwaysSound` | acme/acme.ts:1588-1677 | in every state of every interleaving the index names only accounts that exist and have the key |
| `AcmeSafety.CompletenessStep` | acme/acme.ts:1588-1677 | one step keeps every account findable exactly if a creation finds its key still free |
| `AcmeSafety.OneAccountPerKey` | acme/acme.ts:1588-1677 | and so over a run, step by step |
| `AcmeSafety.TwoAccountsOneKey` | acme/acme.ts:1588-1677 | two requests at once make two accounts of one key |
| `AcmeSafety.OrdersAlwaysOk` | acme/acme_store.ts:369-487 | in every state, the stored orders' authorizations exist, each order's are distinct and no two orders share one, and orders belong to accounts that exist |
| `AcmeSafety.AlwaysListed` | acme/acme_store.ts:426-428 | the step-by-step trimming always leaves what one trimming of all orders made would |
| `AcmeSafety.ListIsTheLast` | acme/acme_store.ts:426-428 | in every state an account lists as many orders as were made for it, a thousand at most, and those made last, in order |
| `AcmeSafety.NewestIsListed` | acme/acme_store.ts:416-431 | an order just made is the last of its account's list, however many there were |
| `AcmeSafety.AlwaysCreatedOnce` | acme/acme_store.ts:416-431 | no order is ever listed twice |
| `AcmeSafety.GrantedFindsReady` | acme/acme.ts:2064-2104 | a request that goes on with its claim finds the order's stored status "ready", though it looked earlier |
| `AcmeSafety.RunAlways` | acme/acme.ts:2035-2168 | the invariant every event keeps, in every run, under the gap bound alone |
| `AcmeSafety.RecordsAgree` | acme/acme.ts:2101-2168 | in every state each record agrees with its order and account, each "valid" order points at its record, and no order has two; what marks a record replaced is `AcmeChanges.ReplacedIsMarked` |
| `ProcessGap.AgreeIffPrompt` | acme/acme.ts:2035-2168 | and in every run exactly under the gap bound, however long an order lives: past it two requests finalize an order with an authorization in its last millisecond |
| `AcmeSafety.InTimeFindsOrder` | acme/acme_store.ts:468-487 | a finalize within a day of its look finds its order still stored |
| `AcmeSafety.StatusMoves` | acme/acme.ts:2101-2168 | stored status moves only ready to processing to ready or valid |
| `AcmeSafety.AlwaysLater` | acme/acme.ts:1729-1741 | over any run an account's entry never changes, "deactivated" and "valid" are for good, a record changes only in what replaced it, and once replaced stays so |
| `AcmeSafety.AccountsForGood` | acme/acme.ts:1729-1741 | over any run, under no bound, an account stays, its entry never changes and "deactivated" is for good |
| `AcmeSafety.ReadyMeans` | acme/acme.ts:880-934 | a derived "ready" is exactly: stored ready, unexpired, and every authorization there, valid and unexpired |
| `AcmeSafety.ShownMeans` | acme/acme.ts:917-934 | in every state of every run an order is shown "valid" exactly if a certificate record names it, and then it names that record; "processing" exactly if a request is at work on it; of the others "ready" exactly as above |
| `AcmeSafety.AuthzShownAs` | acme/acme.ts:880-905 | how each authorization is shown, and exactly when |
| `AcmeSafety.BrokenForGood` | acme/acme.ts:880-934 | an expired order, or one with an authorization gone, stays so over any run |
| `AcmeSafety.InvalidForGood` | acme/acme.ts:880-934 | a derived "invalid" never goes back to ready while the stored status is ready |
| `AcmeChanges.IssuedMarks` | acme/acme.ts:2144-2164 | of the records there were, a finalize marks exactly the one its order replaces, with the new record, and changes nothing else of any |
| `AcmeChanges.IssuedRecord` | acme/acme.ts:2144-2158 | the new record has its order's profile and its account's entry, is indexed under its certID, and is marked itself only if the order replaces that very certID |
| `AcmeChanges.OnlyIssuedRecords` | acme/acme_store.ts:499-530 | no other event touches a record or the renewal index |
| `AcmeChanges.ReplacedIsMarked` | acme/acme.ts:2159-2164 | in every run, finalizing an order that replaces a certID finds its record in the index and marks that one alone |
| `AcmeChanges.ReplacesOnlyUnreplaced` | acme/acme.ts:1941-1962 | a new order replaces only a record of the account's own entry that nothing has replaced |
| `AcmeChanges.NeverReplacedAgain` | acme/acme.ts:1941-1962 | once a record is marked, no new order may replace it, however the run goes on |
| `AcmeChanges.BothMayReplace` | acme/acme.ts:1941-1962 | two orders for one certificate, both placed before either is finalized, are both allowed |
| `AcmeChanges.MarkedAnewIff` | acme/acme.ts:2159-2164 | a marked record is marked anew exactly by finalizing another order that replaces it |
| `AcmeChanges.AccountChanges` | acme/acme.ts:1697-1745 | an account's contact and status change only by its own update and its key only by its own key change, each to what was asked; its entry never |
| `AcmeChanges.BoundAccount` | acme/acme_store.ts:255-270 | an account comes to be only by a bind: active, with the key and entry looked up, and no order |
| `AcmeChanges.DeactivatedSignsNothing` | acme/acme.ts:721-729 | a deactivated account signs no request again, in any run |
| `AcmeChanges.AuthzChanges` | acme/acme.ts:2176-2196 | an authorization changes only by being deactivated, by its own account |
| `AcmeChanges.OrderedOrders` | acme/acme_store.ts:416-487 | new-order drops exactly the never-valid orders ended more than a day ago, leaves the others as they are, and stores the new one ready with its terms |
| `AcmeChanges.OrderedAuthzs` | acme/acme.ts:1962-1985 | its authorizations are valid as long as it is, and no other changes |
| `AcmeChanges.OrderChanges` | acme/acme.ts:2101-2168 | every other event changes at most the order whose finalize it is, in status and certificate alone |
| `AcmeChanges.RequestsChange` | acme/acme.ts:2035-2168 | when a request begins and ends, and that nothing else touches what it carries |
| `AcmeProgress.NewKeyCanBeBound` | acme/acme.ts:1588-1677 | a key in the index of no account can be bound, and the account is found by it |
| `AcmeProgress.KnownKeyJoinsNobody` | acme/acme.ts:1588-1620 | a key in the index is an account's in every run, and joins no other |
| `AcmeProgress.SignedMay` | acme/acme.ts:1697-2440 | in every run a signed request may update its account, take exactly the keys nobody has, and deactivate exactly its own authorizations |
| `AcmeProgress.SignedMayFinalize` | acme/acme.ts:2013-2050 | it may begin to finalize exactly its own orders that are ready, unexpired, and whose authorizations are valid and unexpired |
| `AcmeProgress.SignedMayOrder` | acme/acme.ts:1941-1962 | an order that replaces a certID may be placed exactly if the record is of the account's entry and not replaced |
| `AcmeProgress.PlacedIsReady` | acme/acme.ts:1962-1985 | a placed order is shown "ready" |
| `AcmeProgress.ReadyCanBeFinalized` | acme/acme.ts:2013-2168 | from any state of any run an order shown "ready" and claimed by nobody can be finalized by its active account: it ends "valid" with the record that names it, found by its certID |
| `AcmeProgress.RefusedIsUndone` | acme/acme.ts:2132-2140 | a refused issuance leaves the store as it was and the order unclaimed, so it can be finalized again |
| `OrdersList.ListOrders` | acme/acme.ts:1764-1785 | the page and its "next" link are those of the filtered list |
| `OrdersList.HundredAPage` | acme/acme.ts:1764-1785 | a page is a hundred orders, full if another follows, and another follows exactly if more are left |
| `OrdersList.PagesAreTheList` | acme/acme.ts:1771-1785 | following "next" from page one ends and collects the filtered list |
| `OrdersList.AlwaysEachOnce` | acme/acme.ts:1771-1785 | in every state of every run the pages collect, each once and in the order they were made, exactly those of the last thousand orders made for the account that are stored and not shown "invalid" |
| `OrdersList.ShowingExact` | acme/acme.ts:1771-1776 | the list shows exactly the account's stored orders that are not invalid |
| `OrdersList.LinksStayShort` | acme/acme.ts:1771-1785 | and never has more than ten pages |
| `Roster.MemberIndex` | admin-ui/admin_rbac.ts:1239-1266 | the indices found are exactly the memberships that are the person |
| `Roster.SameDn` | ldap/ldap_server.js:4073-4080 | two spellings are one DN exactly if part by part they differ in case and surrounding white space only |
| `Roster.Grant` | admin-ui/admin_rbac.ts:1301-1364 | unchanged where held, else the group with one value more, or a new group |
| `Roster.GrantWrites` | admin-ui/admin_rbac.ts:1345-1364 | a grant that writes adds the person's DN behind the members there were and changes nothing else, the directory's own attributes left out |
| `Roster.NewGroupIs` | admin-ui/admin_rbac.ts:1345-1364 | a new group holds the person alone, under the name the setting gives |
| `Roster.Revoke` | admin-ui/admin_rbac.ts:1419-1521 | unchanged, refused as claimed on the person's own entry, or the group without the person |
| `Roster.TakeOut` | admin-ui/admin_rbac.ts:1503-1519 | values taken out one at a time are values left out from the start |
| `Roster.HoldsIffNamed` | admin-ui/admin_rbac.ts:1239-1266 | a person is found exactly if some value of a membership attribute is them |
| `Roster.RevokeRemoves` | admin-ui/admin_rbac.ts:1496-1519 | after a revoke the person is found in no attribute |
| `Roster.RevokeSpares` | admin-ui/admin_rbac.ts:1496-1519 | every other value of every attribute is kept, in order, and nothing else is |
| `Roster.GrantIsHeld` | admin-ui/admin_rbac.ts:1345-1364 | after a grant the person is found |
| `Roster.GrantTwice` | admin-ui/admin_rbac.ts:1335-1364 | a second grant call changes nothing |
| `Roster.GrantThenRevoke` | admin-ui/admin_rbac.ts:1199-1521 | a grant taken back restores the non-operational attributes exactly unless an empty "member" was there |
| `Roster.EmptyMemberGoes` | admin-ui/admin_rbac.ts:1199-1521 | a group that does not come back |
| `Roster.RevokeTwice` | admin-ui/admin_rbac.ts:1419-1521 | nor does a second revoke call, after either of which the person is not found |
| `Roster.FoundAndListed` | admin-ui/admin_rbac.ts:1236-1266 | what a grant or revoke finds and what the directory lists agree on DNs, and differ over memberUid exactly as stated |
| `Roster.GrantFindsButUnlisted` | admin-ui/admin_rbac.ts:1335-1343 | a grant that reports the role held where the directory does not list the person |
| `Roster.StillListedIff` | admin-ui/admin_rbac.ts:1239-1266 | the directory still lists the revoked person exactly by a memberUid under another of their names |
| `Roster.RevokedByAnotherName` | admin-ui/admin_rbac.ts:1239-1266 | every person with an alias can be such a case |
| `Roster.ThereIsOne` | admin-ui/admin_rbac.ts:1239-1266 | a concrete one |
| `ConsoleRoles.HeldRoles` | admin-ui/admin_rbac.ts:1096-1117 | the loop over a person's groups holds a role exactly if some group they are in gives it |
| `ConsoleRoles.WantedIs` | admin-ui/admin_rbac.ts:1096-1103 | a role's group is known by name and by DN, and where both settings name one group it is the write group |
| `ConsoleRoles.GroupNameIs` | admin-ui/admin_rbac.ts:1107-1109 | a group's name is its first, or the one in its DN |
| `ConsoleRoles.RosterEmpty` | admin-ui/admin_rbac.ts:1036-1055 | the early exit answers what the full roster's count does |
| `ConsoleRoles.RosterComplete` | admin-ui/admin_rbac.ts:598-636 | whoever is in a role's group is on its roster from one end or the other, and nobody else |
| `ConsoleRoles.HeldOffTheRoster` | admin-ui/admin_rbac.ts:1096-1119 | with an empty roster a role is held exactly through a group elsewhere with a role group's name |
| `ConsoleRoles.HeldWithAnEmptyRoster` | admin-ui/admin_rbac.ts:1096-1119 | a directory in which somebody does |
| `ConsoleRoles.RolesOf` | admin-ui/admin_rbac.ts:1081-1177 | what is held, when the console is open to the person, when their roles wait for the claim, and that write implies read |
| `ConsoleRoles.Describe` | admin-ui/admin_rbac.ts:1747-1793 | open to anyone is exactly open to each named person holding no role |
| `ConsoleRoles.WriteImpliesRead` | admin-ui/admin_rbac.ts:184-196 | whoever holds Admin Write holds Admin Read |
| `ConsoleRoles.OwnGroupGives` | admin-ui/admin_rbac.ts:1096-1113 | what a role's own group gives whatever its name |
| `ConsoleRoles.WriteGroupNamedForRead` | admin-ui/admin_rbac.ts:1096-1113 | a write group that gives Admin Read alone |
| `ConsoleRoles.OneGroupWritten` | admin-ui/admin_rbac.ts:1096-1117 | writing one group changes nothing that any other gives |
| `ConsoleRoles.GrantGives` | admin-ui/admin_rbac.ts:1301-1366 | after a grant, exactly when the person holds the role as `rolesOf` answers it |
| `ConsoleRoles.FirstGrantHonoursClaims` | admin-ui/admin_rbac.ts:570-597 | the grant that makes the group gives the role to others exactly by memberOf claims already there |
| `ConsoleRoles.RevokeTakes` | admin-ui/admin_rbac.ts:1419-1521 | after a revoke, exactly when the person still holds the role |
| `ConsoleWindow.Register.NoteConsoleSignIn` | admin-ui/admin_rbac.ts:958-987 | a sign-in's effect on every realm, and that the binding is put back |
| `ConsoleWindow.SignInCloses` | admin-ui/admin_rbac.ts:958-1013 | it closes exactly the window of the realm the session derives from, or of the default realm: seeded, open, the administrator's by name, and in product only by a password this service checked |
| `ConsoleWindow.Register.CloseBootstrapWindow` | admin-ui/admin_rbac.ts:989-1013 | closes exactly a seeded and unclaimed window of the bound realm |
| `ConsoleWindow.Register.GrantRole` | admin-ui/admin_rbac.ts:1301-1376 | the grant written in the bound realm alone, or refused and nothing written |
| `ConsoleWindow.Register.RevokeRole` | admin-ui/admin_rbac.ts:1419-1530 | the revoke written in the bound realm alone, and when it is refused as a claim |
| `ConsoleWindow.Register.SeedBootstrapAdministrator` | admin-ui/admin_rbac.ts:782-876 | seeding step by step: account, mark, both grants, and closed at once where somebody else administered |
| `ConsoleWindow.SeededIff` | admin-ui/admin_rbac.ts:782-876 | a seeding seeds exactly if an administrator is named, the window unclaimed and the account there or made; otherwise nothing changes |
| `ConsoleWindow.SeedGivesBoth` | admin-ui/admin_rbac.ts:840-876 | with both writes done the administrator is in both groups, with neither no group is written, and the window is closed exactly where somebody else administered |
| `ConsoleWindow.AdministeredMeans` | admin-ui/admin_rbac.ts:598-636 | somebody else administers exactly if a role's own group names another person by uid or DN, or an entry claims it without being listed |
| `ConsoleWindow.ClosesExactly` | admin-ui/admin_rbac.ts:782-1013 | one event closes a seeded realm's window exactly if it is the administrator's sign-in from there or such a seeding |
| `ConsoleWindow.ClosedByWhatClosesIt` | admin-ui/admin_rbac.ts:782-1013 | over any run a seeded window is closed at the end exactly if it was or some event closed it |
| `ConsoleWindow.NeverOpenAgain` | admin-ui/admin_rbac.ts:1133-1148 | once claimed the console is open by the window to nobody, whatever becomes of roster, mode and settings |
| `ConsoleWindow.SeedingAClaimedRealm` | admin-ui/admin_rbac.ts:795-801 | re-seeding a claimed realm changes nothing |
| `ConsoleWindow.SignInIsLocal` | admin-ui/admin_rbac.ts:958-987 | a sign-in changes nothing but the one flag of the realm it came from, and exactly when |
| `ConsoleWindow.OthersUntouched` | admin-ui/admin_rbac.ts:453-470 | what names one realm leaves every other as it is |
| `ConsoleWindow.NamedIsChanged` | admin-ui/admin_rbac.ts:1301-1530 | and changes the named one as the acts are proved to |
| `ConsoleWindow.SeedOpensTo` | admin-ui/admin_rbac.ts:782-876 | exactly whom a first seeding opens the console to |
| `ConsoleWindow.OpenOnlyIn` | admin-ui/admin_rbac.ts:1133-1148 | product is never open, and with an administrator seeded the roster's emptiness has no part in it |
| `RealmBinding.Register.Run` | admin-ui/admin_rbac.ts:453-470 | the swapped variable gives every call, nested or failing, the meaning of handing it its realm, and is put back |
| `RealmBinding.Register.InRosterRealm` | admin-ui/admin_rbac.ts:453-470 | one bound call: the named realm's view, an unknown realm's none, an empty name the caller's |
| `RealmBinding.ViewIs` | admin-ui/admin_rbac.ts:453-470 | blank leaves the binding, a known realm is bound, an unknown one binds nothing |
| `RealmBinding.WriteLands` | admin-ui/admin_rbac.ts:453-470 | a write lands in the bound realm alone, and nowhere without one |
| `RealmBinding.ThrownStops` | admin-ui/admin_rbac.ts:453-470 | a call that throws stops what was to follow and undoes nothing |
| `RealmBinding.WritesOnlyInReach` | admin-ui/admin_rbac.ts:453-470 | a call changes no realm but those it is bound to or names |
| `RealmBinding.ReadsOnlyInReach` | admin-ui/admin_rbac.ts:453-470 | and what other realms hold makes no difference to it |
| `RealmBinding.OneRealmAlone` | admin-ui/admin_rbac.ts:1819-1840 | a call that names its realm acts there alone, whatever was bound |
| `CertificateCatalogue.Catalogue.Add` | admin-core/certificate_views.ts:282-314 | one entry a certificate: grouping in place is the group-by of everything offered |
| `CertificateCatalogue.Catalogue.Entries` | admin-core/certificate_views.ts:320-324 | the entries, in the order the certificates were first offered |
| `CertificateCatalogue.EntryHolds` | admin-core/certificate_views.ts:282-314 | a certificate's entry, said of the offers: the first one's text, every place any names, every certificate of any chain, nothing twice |
| `CertificateCatalogue.ThereIfOffered` | admin-core/certificate_views.ts:282-296 | it is there exactly if an offer is marked as a certificate and reads as it |
| `CertificateCatalogue.Joined` | admin-core/certificate_views.ts:296-313 | first text kept, each place once, each non-empty chain certificate once, in order |
| `CertificateCatalogue.Lookup` | admin-core/certificate_views.ts:549-555 | the two stages find a certificate exactly if the full catalogue would |
| `CertificateCatalogue.StagesAgree` | admin-core/certificate_views.ts:549-555 | same certificate, a first part of its places and chain, and all of them exactly if no holder adds one |
| `CertificateCatalogue.HolderNotShown` | admin-core/certificate_views.ts:549-555 | a certificate of which they do not |
| `CertificateMemo.Memo.Answer` | admin-core/certificate_views.ts:678-745 | a call through the map is a step of the memo the lemmas are about |
| `CertificateMemo.Memo.Remember` | admin-core/certificate_views.ts:708-711 | the oldest go until there is room for one |
| `CertificateMemo.RoomIs` | admin-core/certificate_views.ts:708-711 | below 4,096 nothing goes, at it the oldest alone |
| `CertificateMemo.AskedIsHeld` | admin-core/certificate_views.ts:678-745 | what was asked is held, so asking again adds and drops nothing |
| `CertificateMemo.KeysApart` | admin-core/certificate_views.ts:678-745 | the two kinds of key never meet |
| `CertificateMemo.MemoIsExact` | admin-core/certificate_views.ts:678-745 | over every sequence of calls the answers are the parsers' exactly if the digests tell apart whatever the parsers do |
| `CertificateMemo.NeverMoreThan` | admin-core/certificate_views.ts:176-177 | and no more than 4,096 are ever held |
| `CertificateMemo.LabelsAreSearched` | admin-core/certificate_views.ts:627-644 | the cheap first test finds nothing the full search would not |
| `CertificateMemo.FoundByAnyPart` | admin-core/certificate_views.ts:627-644 | a search finds a certificate by its subject, its issuer and every place's label |
| `CertificateMemo.MatchingConcat` | admin-core/certificate_views.ts:627-644 | and the matches of a list are in the list's order |
| `CertificateMemo.ListView` | admin-core/certificate_views.ts:613-672 | the page is that of parsing every certificate, searching all of each, and slicing |
| `Paging.PagingOf` | admin-core/admin_views.ts:4206-4239 | the length asked for, the default or the ceiling; the page asked for, the first or the last; how many pages there are, and the rows the page shows |
| `Paging.LengthsAre` | admin-core/admin_views.ts:4206-4225 | three hundred rows at most, fifty unasked, unless the list says otherwise |
| `Paging.PagesAreTheList` | admin-core/admin_views.ts:4206-4239 | the pages one after another are the list |
| `AdminScope.UnderIsBySegments` | admin-ui/admin_scope.ts:415-421 | under a prefix is exactly: the prefix's segments are the path's first |
| `AdminScope.ServicePagesCoverBelow` | admin-ui/admin_scope.ts:429-438 | everything below a service page is one |
| `AdminScope.ServiceSettingsIn` | admin-ui/admin_scope.ts:480-499 | exactly the known service-only keys a body names, each once |
| `AdminScope.RefusalFor` | admin-ui/admin_scope.ts:535-579 | refused exactly when a realm authority crosses the line; for a service page, another realm read, an act of the service or kept settings, the first of these that holds |
| `AdminScope.WritesStayInTheRealm` | admin-ui/admin_scope.ts:535-579 | an unrefused write of a realm authority is at no service page, creates or removes no realm, touches no root, service branch, scheduler duty, terms or partner realm, names no other realm and no kept setting |
| `AdminScope.RealmsPageKeeps` | admin-ui/admin_scope.ts:224-292 | on the realm, certificate and scheduler pages, exactly which acts a realm authority keeps |
| `AdminScope.OtherPagesKeep` | admin-ui/admin_scope.ts:294-353 | and on the risk, trust and key pages; on any other page all |
| `AdminScope.KeptIs` | admin-ui/admin_scope.ts:440-499 | which settings are kept for the service, and what names one |
| `AdminScope.ReadsStayInTheRealm` | admin-ui/admin_scope.ts:354-382 | a read is allowed exactly off the service pages and, on the pages that take a realm, of the authority's own |
| `AdminScope.HiddenIsRefused` | admin-ui/admin_scope.ts:591-598 | a hidden row's page, and every page below it, is refused whatever is asked |
| `AdminScope.ShownCanBeRead` | admin-ui/admin_scope.ts:591-598 | a row is shown exactly if its page can be read |
| `AdminScope.ServiceAuthorityReachesAll` | admin-ui/admin_scope.ts:535-542 | a service authority is refused nothing and hidden nothing |

## Left out

- Signatures, the JWS header rules, `url` and `alg` checks, key loading, X.509
  parsing and thumbprints: cryptography, or one branch each.
- HTTP: headers, `Link`, problem documents, routing, audit, logging and monitors.
- Placement of requests in cells and relaying to their holder; the directory
  behind the answers the role register reads.
- Revoking certificates, downloading them, challenges and renewal windows.
- The wording of problems, and their truncation to the first five names.
- Replication of the account, authorization and certificate maps between nodes:
  `FinalizeCluster` copies order statuses and `NonceCluster` spends.
- `AcmeSafety.RunAlways`, and `RecordsAgree`, `StatusMoves` and `AlwaysLater` with
  it: a finalize claims and goes on within 60,001 ms of its look, and finishes while
  its order is stored. An order is stored for a day after any look at it
  (`InTimeFindsOrder`), and longer while it lives.
- `AcmeSafety.OrdersAlwaysOk`: a finalize finishes while its order is stored. One
  that does not saves its order back without its authorizations
  (`AcmeStore.SavedBack`).
- `FinalizeCluster.AtMostOneCertificate`: a claim is answered within the gap of its
  look; how long the handler then waits is not bounded.
- `NonceCluster.AcceptedOnce`: a claim is answered within the gap of its check;
  `OncePerNode` needs no such bound.
- `Nonce.MintNonce`: the lifetime is a whole number of seconds, as the setting is.
- `Text`: case is that of the ASCII letters.
- Names in the role register are plain local names: the entry a DN, a DID, a
  SPIFFE ID or a `urn:uuid:` names is found by what the entry records, and is not
  part of this model.
- `Roster.Grant`: refusals for no directory, an unknown role or a name no DN can
  carry, each one branch; attribute names are lower-case, as the directory keeps
  them, and escapes in a DN are not undone.
- `ConsoleWindow.NeverOpenAgain`: the bootstrap name is fixed, and nobody writes
  the account's flags or deletes it, which the directory refuses
  (`ldap/ldap_server.js:26885-26899`); a realm removed and made again is a new
  realm.
- `ConsoleWindow.Register.SeedBootstrapAdministrator`: the password the new
  account must change (`pwdReset`) is not modelled.
- A source of certificates that throws part-way: what it offered before counts,
  and is what is offered in the model.
- `CertificateMemo.MemoIsExact`: that SHA-256 tells certificates apart is the
  condition, not a claim.
- The certificate details model, its anchors and chain building.
- Console pages, the API explorer, `account-api`, and the tables of prose.
