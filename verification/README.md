# PitLore verified model

A Dafny model of the stateful core of the Pack manager and the Pack Registry, with proofs of what that core
promises. Each module follows one component of the repository:

| module | component |
|---|---|
| `Graph`, `Walk` | dependency graphs, paths, cycles, and the depth-first walk shared by lock validation and bundle verification |
| `PackLock`, `PackSteps`, `PackProject` | the Pack lockfile: validation, single-pack and bundle installation, uninstallation |
| `Bundle`, `BundleInstall`, `RoundTrip` | exporting the closure of an installed pack, verifying a bundle, and installing it elsewhere |
| `Guard` | the cross-process lockfile protocol: guard file, temporary file, atomic rename, readers, crashes |
| `Framing` | the byte stream that is hashed for a Pack |
| `Decimal`, `Semver`, `SortKey`, `Order`, `Sets` | version parsing and precedence, the public release order, and the SQL sort key that must agree with it |
| `Releases` | the two-reviewer release lifecycle and its audit log |
| `Paging` | walking public releases by cursor while the registry changes, and the client's loop |
| `Discovery`, `DiscoveryFilter`, `Search` | the cached pointer to the latest published release under concurrent transactions, discovery facets and filters, and the two package searches |
| `SeatLock` | the per-organization promise chain and the seat check that runs in it |
| `Membership` | members, the owner pointer and API tokens under the organization row lock |
| `Metering`, `Quota`, `Billing` | idempotent monthly quotas, their transactions under the organization row lock, and the billing register |
| `RateLimit` | the token-bucket limiter with a bounded table |
| `Reindex` | the bounded reindex pass beside other writers |

`dafny verify dfyconfig.toml` checks everything.

## How to read it

Where the source updates an object step by step, the model is a class or a method with the same steps, proved
against a specification function; the theorems are then about that function and its runs. Protocols between
processes, promises or transactions are state machines: `Do` is one step, `Run` any schedule of steps, and the
theorems hold of every schedule. `Text` is a sequence of code units where the order of strings matters; `string` is
used where only identity matters. Enumeration orders that the source takes from a `Map`, a directory or a table are
left open, so the proofs hold for any order.

Assumptions, all visible as parameters or preconditions: hashes identify content (`contentOf`, `Backed`), the lockfile
parser gives back every lock that the schema accepts (`Parses`), the UTF-8 encoder tells the paths at hand apart and
keeps them NUL-free (`FaithfulEncoding`), and the limiter's clock does not go back (`ClockRuns`). `semver.satisfies` and
the canonicalization of facet values are arbitrary functions; of the latter, one corollary assumes that doing it twice
is enough (`TwiceIsEnough`). A release order is any strict total order where only that matters;
`Semver.VersionLessStrictTotal` and `SortKey.SqlOrderIsPublicOrder` show that the registry's order is one and that the
SQL sort key computes it. Where Postgres orders by its collation, of package names, release ids and of user ids when it
picks a replacement owner, the model orders by code unit, as the in-memory adapter does.

## Where the code differs from what one would expect

- Dependencies are resolved with prereleases allowed (`src/pack.ts:980`), bundles are verified without
  (`src/pack.ts:1054`). A lock built by the first can therefore export a bundle that the second refuses:
  `RoundTrip.PrereleaseClosureIsRefused` is a concrete one, and `RoundTrip.ExportVerifiesExactly` gives the exact
  condition.
- Two Packs that share a Lesson id, or one that shares it with the local store, install without complaint; from then on
  every export fails, whatever its root, because it first loads all installed Packs (`src/registry-artifact.ts:232`,
  `src/pack.ts:679-686`). `RoundTrip.SharedLessonBlocksExport` is such a run; `RoundTrip.RunExportsExactly` says exactly
  when an export goes through.
- `constructor` is a valid Pack name, and plain objects inherit a property of that name, which the lookups at
  `src/pack.ts:311` and `src/pack.ts:316` find. An installed `constructor` cannot be uninstalled beside any other Pack
  (`PackSteps.ConstructorStaysLocked`), and uninstalling it when it is not installed succeeds
  (`PackSteps.AbsentConstructorUninstalls`).
- A private Pack may have any name of 1 to 128 characters (`src/schema.ts:273`), but the lockfile schema accepts only
  names that `PackNameSchema` accepts (`src/pack.ts:239-254`): such a Pack is cached and then refused
  (`PackSteps.PrivateNameIsRefused`).
- Canonicalizing a facet value is not idempotent: NFKC comes before lower case (`src/registry-search.ts:43`), so an H
  with a line below becomes a small h with a separate mark, and canonicalizing again composes the two. The in-memory
  adapter canonicalizes a filter twice (`src/registry-domain.ts:1143`, `src/registry-search.ts:234`), the Postgres
  adapter once (`src/registry-postgres.ts:1310`): `Search.CapitalIsNotPortable` is a filter for which the first finds a
  package and the second does not, and `Search.AdaptersAgreeExactly` says for which filters they agree. The services
  canonicalize once more before either (`src/registry-domain.ts:568-590`); `Search.ServicesAgreeExactly` shows that they
  agree on every filter if two canonicalizations settle every value.
- The same makes a Lesson's facet value that one canonicalization does not settle fail the building of the discovery
  document (`DiscoveryFilter.BuildsExactly`).
- Every service transaction locks the organization row before it reads members or tokens, except the operator's
  bootstrap token (`src/registry-runtime.ts:301-368`). `Membership.BootstrapRaceLeavesToken` has two schedules in which
  the token ends live although its subject was removed, or made a viewer, before it committed;
  `Membership.BootstrapCommitsExactly` says of every schedule when that happens.
- A crash while the guard file is held leaves it in place, and so does an I/O error right after it was created or while
  it is released; nothing in the code removes it, and every later mutation times out until somebody deletes the file.
  `Guard.CrashedInstaller` has both runs, `Guard.LeftStaleExactly` says that no other step does it, and
  `Guard.MutationsGoOnExactly` that in every other state some continuation commits.
- The in-memory adapter lets an earlier approver reject a release; the Postgres adapter refuses a second decision of
  the same reviewer. The model keeps both as they are.
- The in-memory billing handler compares parsed events, the Postgres one hashes the raw body; the model follows the
  in-memory one.

## Model

| member | source | states |
|---|---|---|
| PackLock.ValidateDependencyGraph | src/pack.ts:991-1019 | terminates and accepts exactly the locks whose roots are present, whose pins name locked packages at that version, which are acyclic and fully reachable; a reported cycle or mismatch is a real one |
| PackLock.PackNameMeans | src/schema.ts:27-34 | a pack name is at most 128 characters of non-empty lower-case segments joined by slashes |
| PackLock.OnlyConstructorIsInherited | src/schema.ts:27-34 | of the names that plain objects inherit, `constructor` alone is a valid pack name |
| Walk.DependencyWalk.Visit | src/pack.ts:997-1012 | one depth-first visit: on success everything reachable from the node is in topological order behind it, on failure the error is justified by a real path |
| Graph.TopologicalAcyclic | src/pack.ts:1030-1067 | no package of a dependencies-first order lies on a cycle |
| Graph.TopologicalClosed | src/pack.ts:1030-1067 | a dependencies-first order holds everything its members reach |
| Graph.RootedByDependents | src/pack.ts:1013-1018 | in an acyclic graph, reachability from the roots is the same as every package being a root or having a dependent |
| Graph.ReplaceNode | src/pack.ts:584-635 | when replacing one node of a valid graph keeps it valid, exactly |
| Graph.RemoveNode | src/pack.ts:303-332 | when removing one node of a valid graph keeps it valid, exactly |
| PackSteps.InstallCommitsExactly | src/pack.ts:584-635 | a single-pack install commits exactly if every dependency is locked in range, the signature is by a trusted key or no key was named, the pack is not locked or cached with other content, its names pass the lock schema, dependents pin its version, no dependency leads back to it and no dropped dependency is orphaned |
| PackSteps.InstallWrites | src/pack.ts:605-627 | what an install commits: the pack becomes a root with its own version, integrity, digest and signature (explicitly trusted if keys were named), pinning the locked versions, and is cached |
| PackSteps.UninstallCommitsExactly | src/pack.ts:303-332 | an uninstall commits exactly if the pack is locked, nothing depends on it and each of its dependencies is still a root or needed by another pack; of `constructor`, exactly if no other pack is locked |
| PackSteps.ConstructorStaysLocked | src/pack.ts:314-320 | a valid lock from which `constructor` cannot be uninstalled although nothing depends on it |
| PackSteps.AbsentConstructorUninstalls | src/pack.ts:311 | uninstalling `constructor` from the empty lock succeeds and changes nothing |
| PackSteps.PrivateNameIsRefused | src/pack.ts:605-627 | a private pack that is admissible and whose name the lock schema refuses |
| PackSteps.InstallFrame | src/pack.ts:584-635 | an install leaves other entries alone, and changes a locked version only if no other locked pack depends on it |
| PackSteps.BundleKeepsContent | src/pack.ts:506-545 | a bundle install touches only its own packs and never changes integrity at a fixed version |
| BundleInstall.OverlayGraph | src/pack.ts:506-556 | when laying a closed valid graph over a valid one gives a valid one, exactly |
| BundleInstall.BundleCommitsExactly | src/pack.ts:494-558 | on any valid lock, a verified bundle commits exactly if each pack's signature is trusted, its ranges are met, it is not locked or cached with other content and its names pass the schema, the locked packs outside the bundle pin its versions, and no dependency of a replaced pack is orphaned |
| BundleInstall.BundleWrites | src/pack.ts:506-556 | what a bundle commits: its root, one entry per pack with the pack's own content and the bundle's versions as pins, and every other entry as it was |
| PackSteps.StepKeeps | src/pack.ts:303-332 | whatever commits is a valid lock and keeps content at fixed versions |
| PackSteps.RunKeepsValid | src/pack.ts:494-635 | over every run of installs, bundle installs, uninstalls and failures the lock is valid and content at a fixed version never changes |
| PackProject.Project.ResolveDependencies | src/pack.ts:971-989 | resolves exactly if every dependency is locked at a version in range, and pins exactly those versions |
| PackProject.Project.WriteEntry | src/pack.ts:600-634 | the checks and the entry written for one pack, for single and bundle installs alike |
| PackProject.Project.InstallVerifiedPack | src/pack.ts:584-635 | commits what the specification of an install commits and reports whether the pack is new, changed or as it was; a failure leaves the lock as it was and at most one more pack in the cache |
| PackProject.Project.InstallAirgapBundle | src/pack.ts:494-558 | locks the packs of a bundle one by one in a working copy, commits all or nothing and reports each; a failure leaves at most packs of the bundle in the cache |
| PackProject.Project.UninstallPack | src/pack.ts:303-332 | commits what the specification of an uninstall commits; a failure changes nothing |
| Bundle.ClosureWalk.Visit | src/registry-artifact.ts:237-246 | the growing closure set ends as exactly what is reachable from the root |
| Bundle.VerifyInstalledPacks | src/pack.ts:651-698 | passes exactly if the lock is valid, every cached pack matches its entry in content, name, version, visibility and signature, and no Lesson id is provided twice |
| Bundle.CreateRegistryPackBundle | src/registry-artifact.ts:227-270 | exports each pack of the root's reachability closure once, and goes through exactly if all installed packs verify, the root is locked and the closure is not too large |
| Bundle.ExportableMeans | src/registry-artifact.ts:227-270 | an export goes through exactly if the lock is valid, every installed pack is as it was locked (name, version, content, signing key, visibility), no Lesson id is provided twice, and the root is locked with at most 64 packs below it |
| Bundle.AirgapBundleInstallOrder | src/pack.ts:1030-1067 | a topological order of the root's closure with the root last, or a justified error |
| Bundle.VerifyAirgapPackBundle | src/pack.ts:560-582 | accepts exactly the bundles of distinct packs that form the root's closure, acyclic, every range met, and returns an install order |
| RoundTrip.RunKeepsBacked | src/pack.ts:494-635 | over every run each lock entry is backed by a cached pack whose ranges its pins satisfied |
| RoundTrip.RunExportsExactly | src/pack.ts:679-686 | after every run of the lock operations, an export goes through exactly if the root is locked, no Lesson id is provided twice in the whole project, and the closure is not too large |
| RoundTrip.SharedLessonBlocksExport | src/pack.ts:679-686 | two installs that commit, after which no root can be exported |
| RoundTrip.ExportVerifiesExactly | src/pack.ts:1047-1058 | an exported bundle verifies exactly if the closure's pins also meet their ranges without the prerelease allowance |
| RoundTrip.ImportReproduces | src/pack.ts:494-558 | installing an export into an empty project, in any install order, commits exactly if every signature is trusted, and locks the same versions, integrities, digests and pins |
| RoundTrip.BundleRoundTrip | src/registry-artifact.ts:227-270 | for every lock built by these operations: exactly when it exports, when the bundle verifies and when the import commits; the import reproduces the closure and can be exported again |
| RoundTrip.PrereleaseClosureIsRefused | src/pack.ts:1054 | a concrete lock whose export is refused because of a prerelease |
| Guard.EveryRunIsSerial | src/pack.ts:1122-1261 | for any processes, interleaving and crashes: one guard holder at most, every committed lock is one mutation of the one before, the lock path holds the latest, and finished reads are committed locks |
| Guard.ReadsAreWhole | src/pack.ts:637-649 | no reader ever parses a torn or partial lockfile |
| Guard.AssertsNeverFail | src/pack.ts:1191-1204 | the holder always finds its own guard file unchanged |
| Guard.RenameKeeps | src/pack.ts:1246-1247 | the rename commits the mutation of the latest lock, whole |
| Guard.LeftStaleExactly | src/pack.ts:1135-1217 | in every reachable state, a step leaves the guard without a holder exactly if it is a crash of the holder or an error while it takes or releases the guard |
| Guard.StaleGuardBlocks | src/pack.ts:1135-1176 | with such a guard no later schedule commits anything |
| Guard.MutationsGoOnExactly | src/pack.ts:1122-1176 | in every reachable state with an idle process whose mutation applies, some continuation commits exactly if the guard is not stale |
| Guard.CrashedInstaller | src/pack.ts:1135-1217 | two runs of one process that end with a stale guard, one of them with the process alive |
| Guard.EveryCommittedLockIsValid | src/pack.ts:1122-1133 | concurrent installs and uninstalls commit, and readers see, only valid locks whose content at a fixed version never changes; of the file format only that the parser undoes the serializer is assumed |
| Framing.DecodeFrames | src/pack.ts:863-875 | decoding the framed stream gives the files back |
| Framing.FrameOfTwoBytes | src/pack.ts:863-875 | the exact bytes of one frame |
| Framing.HashedStream | src/pack.ts:858-879 | the stream is the frames of the files sorted by path |
| Framing.StreamIdentifiesFiles | src/pack.ts:858-879 | two streams are equal exactly if the file sets are, whatever the enumeration order |
| Decimal.LengthThenText | src/registry-domain.ts:2205-2213 | comparing canonical decimals by length then text is comparing their values |
| Decimal.RenderValue | src/pack.ts:872 | a decimal rendering has the value it renders |
| Order.TextLessMeans | src/registry-domain.ts:2170-2181 | the order of text is that of the first different code unit, a proper prefix first |
| Semver.ParseMeans | src/schema.ts:13-19 | a version parses exactly if it is spelled as sections 2, 9 and 10 of SemVer 2.0.0 have it, with numbers up to 2^53 - 1 and at most 256 characters, and then into the parts it was spelled from, build metadata aside |
| Semver.CompareSemverPrecedence | src/registry-domain.ts:2183-2217 | computes precedence as section 11 of SemVer 2.0.0 defines it |
| Semver.ComparePublicReleaseVersions | src/registry-domain.ts:2170-2181 | descending precedence, ties broken by raw text descending |
| Semver.RankOrder | src/registry-domain.ts:2183-2217 | precedence is a lexicographic order of ranks, zero only for equal ranks |
| Semver.PublicOrderAntisymmetric | src/registry-domain.ts:2170-2181 | the public order is antisymmetric and zero only for identical strings |
| Semver.PublicOrderTransitive | src/registry-domain.ts:2170-2181 | the public order is transitive |
| Semver.VersionLessStrictTotal | src/registry-domain.ts:2170-2181 | the public order, extended to any text, is a strict total order |
| SortKey.RegistrySemverSortKey | migrations/008_registry_semver_keyset.sql:7-86 | the SQL key is defined exactly on the versions the application parses, and is their key |
| SortKey.SortKeyMeans | migrations/008_registry_semver_keyset.sql:48-84 | the parts of a key: three numbers of 16 digits, `1:` for a stable version or `0:` for a prerelease, and for each identifier `0:`, its length in three digits and its digits, or `1:` and its text |
| SortKey.SortKeyOrder | migrations/008_registry_semver_keyset.sql:7-86 | comparing keys is comparing precedence |
| SortKey.SqlOrderIsPublicOrder | src/registry-postgres.ts:1624-1661 | ordering by sort key and tie key descending is the public order |
| Releases.RegistryDomainService.SubmitRelease | src/registry-domain.ts:1595-1643 | reserves name and version once, or changes nothing |
| Releases.RegistryDomainService.ApproveRelease | src/registry-domain.ts:1645-1711 | adds one approval, publishes with the second, writes the matching audit events, or changes nothing |
| Releases.RegistryDomainService.RejectRelease | src/registry-domain.ts:1713-1756 | rejects a pending release of somebody else, or changes nothing |
| Releases.RegistryDomainService.YankRelease | src/registry-domain.ts:1758-1796 | yanks a published release, or changes nothing |
| Releases.RegistryDomainService.ReplaceReleaseState | src/registry-domain.ts:1198-1214 | replaces a release exactly if the schema holds and no identity field differs |
| Releases.RegistryDomainService.AppendAuditEvent | src/registry-domain.ts:1352-1360 | appends one event with the next sequence number |
| Releases.DecisionFits | src/registry-domain.ts:242-344 | the release schema never rejects a state the transitions build, and no decision changes an identity field |
| Releases.RolesDecide | src/registry-domain.ts:1605-1653 | a member is forbidden a submission exactly as a viewer, a decision exactly as a viewer or publisher or as the submitter |
| Releases.SubmitExactly | src/registry-domain.ts:1595-1643 | exactly when a submission goes through, and the release and event it adds |
| Releases.ApproveExactly | src/registry-domain.ts:1645-1711 | exactly when an approval goes through: by an admin or owner who neither submitted nor approved a pending release; the second one publishes |
| Releases.RejectExactly | src/registry-domain.ts:1713-1756 | exactly when a rejection goes through, and what it changes |
| Releases.YankExactly | src/registry-domain.ts:1758-1796 | exactly when a yank goes through, and what it changes |
| Releases.StepKeepsGood | src/registry-domain.ts:1595-1796 | every step keeps the schema, the numbering, and an audit log that tells each release's story |
| Releases.EveryReleaseIsConsistent | src/registry-domain.ts:242-344 | in every reachable registry: at most two approvals, by different people other than the submitter, and exactly the times and reasons that the status calls for |
| Releases.PublishedMeansReviewed | src/registry-domain.ts:1645-1711 | over every run a published or yanked release has two approvals, by two different people other than the submitter, each an admin or owner of the organization when approving |
| Releases.NoDecisionIsUndone | src/registry-domain.ts:1595-1796 | identity never changes, rejected and yanked are terminal, published can only become yanked, and the audit log only grows |
| Releases.AuditLogTellsAll | src/registry-domain.ts:1352-1360 | sequence numbers are contiguous; per release one approval event per approval and one publication event exactly if it was ever published |
| Paging.ListPublicReleases | src/registry-domain.ts:1294-1318 | a page lists published and yanked releases only, in order, after the cursor; each such release is listed or lies behind the next cursor |
| Paging.WalkAscends | src/registry-domain.ts:1991-2018 | the versions of a walk ascend strictly across pages and all pages but the last are full |
| Paging.CursorIsNew | src/registry-client.ts:494-501 | the client never meets a cursor it has seen, whatever changes between its requests |
| Paging.CollectPublicReleases | src/registry-client.ts:478-509 | the client's loop returns the concatenation of a walk, or stops after 10,000 pages |
| Paging.ChangingWalkIsComplete | src/registry-domain.ts:1991-2018 | with any submits, approvals, rejections and yanks between pages, a finished walk lists each release public from the start exactly once and none twice |
| Paging.QuietWalkFits | src/registry-client.ts:483 | on a registry that does not change, the walk ends within the cap exactly if 10,000 pages can hold the public releases |
| Paging.BrowseReleases | src/registry-client.ts:478-509 | the client against such a server, for every page size: its result holds every release that was published or yanked from the start, and no other status |
| Discovery.LatestPublishedDiscovery | src/registry-domain.ts:1320-1350 | filter, sort, first: the first published release in the release order |
| Discovery.CommitKeeps | src/registry-postgres.ts:1996-2021 | a commit keeps the pointer right because approve and yank hold the package row |
| Discovery.PointerIsLatest | src/registry-postgres.ts:1704-2021 | in every interleaving of submit, approve, reject and yank transactions, with aborts, the committed pointer is the latest published release or null, and published releases have exactly two approvers |
| Discovery.CommitDoesTheJob | src/registry-postgres.ts:1704-1967 | in every interleaving, a committing transaction does exactly its job on the rows committed by then: an approval adds its approver and publishes exactly as the second one, a rejection rejects, a yank yanks and takes the pointer away |
| Discovery.AloneGoesThrough | src/registry-postgres.ts:1704-1967 | in every reachable state in which its locks are free, a reviewer's transaction goes through exactly if its job can be done |
| Search.StrposIncludes | src/registry-postgres.ts:1335-1349 | `strpos` gives the position of the first occurrence, and `strpos(...) > 0` is substring containment |
| DiscoveryFilter.RefusedExactly | src/registry-search.ts:142-177 | a filter is refused exactly if a dimension has more than four values or one that cannot be normalized |
| DiscoveryFilter.NormalizedIsCanonical | src/registry-search.ts:142-177 | normalizing a normalized filter again changes nothing if normalizing leaves each of its values alone |
| DiscoveryFilter.BuildsExactly | src/registry-search.ts:179-226 | a facet list of a document is built exactly if every Lesson value normalizes to one that normalizing leaves alone, and there are not too many |
| DiscoveryFilter.SettledMatches | src/registry-search.ts:229-241 | a settled filter and its normalization match the same documents |
| DiscoveryFilter.UnsettledDiffers | src/registry-search.ts:229-241 | for every other filter there is a document that only its normalization matches |
| Search.FacetConditionsAgree | src/registry-search.ts:229-241 | the facet-row condition is the document match, for any filter values: OR within a dimension, AND across dimensions |
| Search.UndiscoveredNeedsNoFilter | src/registry-postgres.ts:1324-1357 | a package without discovery data is excluded exactly when a filter is set |
| Search.NamesAgree | src/registry-postgres.ts:1305-1394 | both searches select the same packages for a settled filter |
| Search.ListPublicPackages | src/registry-domain.ts:1136-1170 | the loop over the packages computes the in-memory search, its second normalization and the error that this can raise included |
| Search.SearchMeans | src/registry-domain.ts:1136-1170 | the search answers with the first `limit` names, in order, of the public packages that contain the query, come after the cursor and have a wanted value in every filtered dimension |
| Search.PortableAgrees | src/registry-postgres.ts:1305-1394 | on every database that keeps the invariants, both adapters return the same hits in the same order for a portable filter |
| Search.AdaptersAgreeExactly | src/registry-domain.ts:1136-1170 | the adapters agree on a filter on every such database exactly if it is refused by both, or its normalization and the next one have the same fixed values in every filtered dimension, or find nothing |
| Search.CapitalIsNotPortable | src/registry-search.ts:39-57 | a filter and a database on which the in-memory adapter finds a package and the SQL search does not |
| Search.ServicesAgreeExactly | src/registry-domain.ts:558-590 | the same of the services, which normalize first; they agree on every filter if two normalizations settle every value |
| Search.CursorBindsRequest | src/registry-domain.ts:608-668 | a search cursor is accepted exactly with the query it was made for and a filter of the same canonical form |
| Search.InsertDiscovery | src/registry-postgres.ts:583-617 | writing a document and its facet rows violates no key and keeps the facet-row invariant |
| SeatLock.MemberMutationLocks.Enter | src/registry-server.ts:1591-1597 | a call chains itself behind the stored tail of its key |
| SeatLock.MemberMutationLocks.Finish | src/registry-server.ts:1600-1603 | a call releases, and deletes the entry only if it is still its own |
| SeatLock.OneAtATimeInOrder | src/registry-server.ts:1586-1605 | for every schedule, one operation per key at a time, in arrival order, failures included |
| SeatLock.EntryWhileUnfinished | src/registry-server.ts:1600-1603 | a key has an entry exactly while one of its calls is unfinished |
| SeatLock.FirstUnfinishedGoesOn | src/registry-server.ts:1586-1605 | the first unfinished call of a key is running or can start: no call is forgotten |
| SeatLock.SeatsStayWithinLimit | src/registry-server.ts:1168-1194 | with a fixed plan, no schedule of concurrent additions, removals and failures pushes an organization past its seat limit or what it had |
| SeatLock.CallGoesThrough | src/registry-server.ts:1168-1194 | a call that is left alone adds its user exactly if there is a seat, and is done |
| SeatLock.FailureLeaves | src/registry-server.ts:1600-1603 | a failing operation changes no member and releases its key |
| Membership.OrganizationTransaction.UpdateMemberRole | src/registry-postgres-application.ts:888-973 | transfers the owner pointer if needed, changes the role and revokes the subject's tokens, or changes nothing |
| Membership.OrganizationTransaction.RemoveMember | src/registry-postgres-application.ts:985-1059 | transfers the owner pointer if needed, revokes the subject's tokens and removes the member, or changes nothing |
| Membership.OrganizationTransaction.AddMember | src/registry-postgres-application.ts:709-774 | adds a member within the seat limit, or changes nothing |
| Membership.OrganizationTransaction.IssueToken | src/registry-token-service.ts:269-308 | inserts a live token exactly for an active admin or owner |
| Membership.OrganizationTransaction.RevokeForSubject | src/registry-token-service.ts:348-380 | leaves no live token of the subject and returns how many it revoked |
| Membership.AddMemberExactly | src/registry-postgres-application.ts:709-774 | an addition goes through exactly if an admin or owner (for an owner: an owner) asks for a known user who is no member, within the seat limit |
| Membership.UpdateMemberRoleExactly | src/registry-postgres-application.ts:888-973 | exactly when a role change goes through; who takes over the owner pointer; that exactly the subject's live tokens are revoked |
| Membership.RemoveMemberExactly | src/registry-postgres-application.ts:985-1059 | the same of a removal |
| Membership.TokensExactly | src/registry-token-service.ts:269-380 | tokens are issued and revoked exactly for active admins and owners, a bootstrap token for the active owner |
| Membership.AloneGoesThrough | src/registry-postgres-application.ts:709-1059 | with nobody else under way, the statements of a transaction commit what it amounts to, or change nothing |
| Membership.PerformKeeps | src/registry-postgres-application.ts:888-1059 | every transaction keeps the owner pointer on an owner member and live tokens with members; role changes and removals leave no live token of their subject |
| Membership.EveryDurableStateIsSerial | src/registry-postgres.ts:893-906 | every interleaving that the row lock allows commits whole transactions one after the other; in every durable state the owner pointer names an owner, only members have live tokens, and a live token's subject has kept its role since its issue |
| Membership.CommitsAreSerial | src/registry-runtime.ts:310-345 | the same of every interleaving with bootstrap tokens, whose one row goes on top of whatever committed before them |
| Membership.DemotionRevokesForGood | src/registry-postgres.ts:1203-1222 | in every interleaving, bootstrap tokens included, no token that a demoted or removed subject had is ever live again |
| Membership.AdditionsFitSeats | src/registry-postgres-application.ts:1134-1148 | in every interleaving a committed addition ends within its seat limit and nothing else adds members |
| Membership.BootstrapCommitsExactly | src/registry-runtime.ts:310-345 | over every interleaving of services and bootstrap tokens: all durable states are in order, and live tokens' subjects keep the role of their issue, exactly if no role change or removal of a bootstrap subject commits between the token's statement (or its checks, or its read of the owner pointer) and its commit |
| Membership.BootstrapRaceLeavesToken | src/registry-runtime.ts:310-345 | two schedules, with a removal and with a role change in between, that leave such a token live |
| Metering.EntitlementService.Take | src/registry-telemetry.ts:253-285 | the running counter is always the sum of the reservations; new usage is refused exactly beyond 1,000 events a month, 100,000 on the team plan, and never on the enterprise plan or without billing |
| Metering.ReserveQuota | src/registry-postgres-telemetry.ts:424-479 | the form that sums the reservations gives the same answers |
| Metering.UsedInPeriod | src/registry-postgres-telemetry.ts:504-516 | the sum does not depend on the order of the rows |
| Metering.ConsumeMeans | src/registry-telemetry.ts:253-285 | a failed call or a retry changes nothing; a new consumption adds its amount to its own month and ends within the limit in force |
| Metering.RetryIsDuplicate | src/registry-telemetry.ts:269-275 | an accepted request repeated at any later time is a duplicate and changes nothing |
| Metering.UsageStaysWithin | src/registry-telemetry.ts:276-280 | while the plan stays the same, no month exceeds its limit |
| Quota.ReservationsAreSerial | src/registry-postgres-telemetry.ts:424-479 | in every interleaving of reservations and plan changes, aborts included, each answer is that of the whole request alone, under the plan then in force, and the rows are what those requests leave |
| Quota.NoClaimIsLost | src/registry-postgres-telemetry.ts:464-477 | the second lookup always finds the transaction's own row and claim |
| Quota.GrantsFit | src/registry-postgres-telemetry.ts:451-479 | in every interleaving each answer tells the usage exactly, and new usage ends within the limit in force |
| Quota.UsageStaysWithinPlan | src/registry-postgres-telemetry.ts:451-455 | while the plan of an organization is not changed, no interleaving takes any of its months over the limit |
| Quota.AloneGoesThrough | src/registry-postgres-telemetry.ts:424-479 | with its organization free, a reservation goes through as one request under the limit of the stored plan (1,000, 100,000 or none), and a plan change is stored |
| Billing.OlderStrictTotal | src/registry-telemetry.ts:365-380 | the event order is a strict total order |
| Billing.BillingWebhookHandler.Handle | src/registry-telemetry.ts:397-437 | applies an event exactly if it is later than the stored position, or of the same time and greater id; a cancellation means the free plan; a reused id with any other content is refused |
| Billing.Deliver | src/registry-telemetry.ts:382-437 | after any deliveries, repeats included, every organization has the plan of its latest event, the greatest id among equal times, and the free plan if that is a cancellation or there is none |
| Billing.OrderDoesNotMatter | src/registry-telemetry.ts:365-380 | reordering and redelivery do not change the plans |
| RateLimit.PublicRateLimiter.CheckKey | src/registry-rate-limit.ts:55-89 | decides by the refilled bucket, moves the client to the end, and never keeps more than `maxClients` |
| RateLimit.WindowBound | src/registry-rate-limit.ts:55-89 | the allowed requests of a remembered client in any window number at most the capacity and the refill of the window |
| RateLimit.RetryIsAllowed | src/registry-rate-limit.ts:74-81 | a denied client that waits `retryAfterSeconds` is allowed, denied retries in between included, and whether or not it has been forgotten |
| RateLimit.EarlierRetryIsDenied | src/registry-rate-limit.ts:74-81 | a remembered client that comes back after a smaller whole number of seconds, at least one, is denied again |
| RateLimit.TableOrder | src/registry-rate-limit.ts:66-87 | in every run the table holds exactly the clients since whose last request fewer than `maxClients` others came, and behind each stand exactly those |
| RateLimit.ForgettingDoesNotShow | src/registry-rate-limit.ts:83-87 | with fewer than `maxClients` other clients between a client's requests, all decisions equal those of an unbounded limiter |
| Reindex.RegistryDatabase.SelectMissingBatch | src/registry-discovery-reindex.ts:107-143 | the first missing releases after the cursor, in id order: none before the last one is skipped, and none at all if the batch is not full |
| Reindex.RegistryDatabase.ReindexMissingRelease | src/registry-discovery-reindex.ts:162-260 | appends the verified document unless another session has, and never reports a changed identity |
| Reindex.ProcessBatch | src/registry-discovery-reindex.ts:73-94 | processes a batch up to the first failure, each release at most once |
| Reindex.ReindexRegistryReleaseDiscovery | src/registry-discovery-reindex.ts:45-105 | terminates beside any writers, stays within the budget, adds at most one row per release, is complete exactly if nothing is missing at its last look, and alone indexes exactly what is missing or the budget allows |

## Left out

- File, Git, process, HTTP, CLI and Web plumbing: foreign calls that the proofs do not need; the guard protocol keeps only open, stat, write, rename, close and unlink as atomic steps.
- Hashing, signatures, tokens' secrets, OIDC and random ids: taken as identifying what they name; ids are parameters.
- Parsing of YAML, JSON and request bodies, and the size limits of packs and bundles: values are taken as parsed and within limits.
- SQL text, row-level security and grants: rows, row locks, one snapshot per statement, commit and rollback only.
- The database collation: taken to be code-unit order, as under the assumptions above.
- Package names unique per organization only: taken as globally unique, as the slug prefix makes them.
- Bundle.CreateRegistryPackBundle: does not fix the `localeCompare` order of the artifacts, because nothing downstream depends on it.
- PackLock.ValidateDependencyGraph: missing dependencies and version mismatches are one message in the code and one error here; which of several errors is reported depends on `Object.keys` order and is left open, and so is the kind of error for a missing root or dependency named `constructor`.
- Guard.EveryRunIsSerial: a temporary file that cannot be removed stays behind without effect and is not modelled; waiting for the guard, its timeout and its retries are one step that can be repeated or given up; durability across a power failure (`fsync`) is not modelled.
- Discovery.PointerIsLatest: audit events and release fields that do not affect the pointer are left out; membership of the reviewer is an input of the step.
- Membership.BootstrapCommitsExactly: the foreign key of the inserted token waits for the holder of the row lock; that wait is placed before the commit, and others may commit first in any number.
- Membership.OrganizationTransaction.AddMember: provisioning of an external identity is the same transaction after the user has been resolved, and is not modelled apart.
- Paging.BrowseReleases: pages of packages, members, tokens and audit events use the same scheme over simpler keys.
- Quota.ReservationsAreSerial: the usage event that is recorded in the same transaction is left out; it can only abort the transaction. A plan change is one write of the plan; which event it comes from is modelled in `Billing`.
- Reindex.RegistryDatabase.ReindexMissingRelease: the facet rows written with a document are modelled in `Search.InsertDiscovery`.
- Lesson lifecycle, retrieval ranking, evidence summaries, semantic diffs, distillation, the usage ledger and browser login: easier members or floating-point heuristics.
