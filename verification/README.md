# Woodstar in Dafny

A model of the parts of the Woodstar server whose correctness does not show in one function body, with
proofs. The server keeps its state in PostgreSQL tables that short transactions update. Here a table is a
map or set, a store is a class over its tables, a transaction is one method and one atomic step, and a run
is any sequence of such steps. Each method is proved against a specification of its new state, and the
properties below are proved of the specifications, for all inputs, states or runs.

The project has seven parts:

1. Derived labels (`Directory*`). Membership of a derived label is a view over primary-user sources, users,
   groups and label criteria, refreshed for one host, for one label or in full. It is exact in every state of
   every run. Provider snapshots replace one source's users, groups and memberships.
2. Munki distribution points (`Distribution*`). Leases are claimed, renewed, superseded and released against
   a clock; points are reordered in two phases under a uniqueness constraint; clients resolve to mirrors.
3. The repository one host sees (`Projection`, `RepositoryService`). The closure over requires and
   update_for is a least fixpoint, and catalog and downloads agree on it.
4. Package info (`Packages`, `Pkginfo*`, `PackageMutations`, `Renaming`). Rendering a package as a native
   Munki document and importing the document again gives the package back, under an exact condition.
5. Merge patch (`MergePatch`). The typed JSON merge patch.
6. Software inventory (`Inventory*`). Replacing a host's software, reading it back grouped, and pruning.
7. Osquery (`Query*`, `Heartbeats`). Query names and the dispatch of results; throttled heartbeats.

`dafny verify dfyconfig.toml` checks everything.

## Conventions

- Ids are naturals wrapped in a datatype; an id that is zero, negative or unknown names no row. Sequences
  are not rolled back with a transaction, and which new id a statement assigns to which row is the
  database's choice.
- Times are integers in microseconds, the resolution of PostgreSQL's clock.
- Where Go or PostgreSQL iterates in no fixed order, the order here is arbitrary too.
- Text is a sequence of code points; `Strings` has Go's TrimSpace, Cut, LastIndexByte and decimal forms of
  64-bit integers. Unicode normalization (`nfc`), the timestamp decoder (`parseTime`), email and CIDR
  validation, CIDR containment and the status check of JSON rows are parameters about which nothing is assumed.
- A JSON object is a map. Package fields are keyed by an enumeration of member names; a native Munki name is a
  key of its own only where it differs from the API's. Objects keyed by applications or variables have names of
  the open kind `Custom`, which is what `IsTree` says of a document.

## What turned out not to hold

Each of these has its exact condition, and an input that fails it.

- A new installer does not always need a new report. It does exactly from the points whose last report names
  another hash (`EligibleAfterNewInstaller`), so going back to a former installer needs none
  (`RevertedInstallerNeedsNoReport`, `RevertedRun`).
- Rendering and importing loses a package with an icon, an enabled alert without texts, or a reference whose
  name contains `--` or ends in `-` before a version, and no other (`RenderThenImport`; `IconIsLost`,
  `SilentAlertIsLost`, `DashedReferenceIsLost`).
- The importer's comment promises that no omitted metadata field becomes managed. That holds exactly for
  documents with an installer type whose launch arguments come with blocking applications
  (`OmittedStayUnmanaged`, `AcceptedOmissions`; `OmittedTypeIsManaged`, `OmittedBlockersAreManaged`). The model
  follows the code.
- A catalog lists an installer whose file name has a slash under a location that does not resolve
  (`ListedIsServed`; `SlashedFileIsNotServed`). Icons whose files have no name share one entry of the icon hashes, which does not
  download (`HashedIsServed`; `NamelessIconsShareAnEntry`).
- Label names an agent makes up may stand for a label that was issued, since signs and leading zeros are
  accepted; a repeated label has all label results refused (`ForeignNameCollides`, `SignedNameIsRefused`). Under
  issued names that does not happen (`EchoedLabelsAreAccepted`).
- Online status is not decided by the age of the last contact between 4m30s and 5m (`BetweenIsUndecided`).

## Model

| member | source | states |
|---|---|---|
| DirectoryRuns.RunsStayExact | internal/labels/store.go:274-310 | in every state of every run of enrolments, host deletions, primary-user, user, label and dynamic-result operations and provider snapshots, each derived label has exactly the hosts a derivation from scratch finds, and keys and references are intact |
| DirectoryRuns.HostRefreshSuffices | internal/labels/store.go:265-290 | when only one host's primary user changed since the view was exact, the host-scoped refresh gives the same tables as a full one |
| DirectoryRuns.LabelRefreshSuffices | internal/labels/store.go:441-457 | when only one label changed, the label-scoped refresh gives the same tables as a full one |
| DirectoryRuns.UpdateUserNeedsNoRefresh | internal/directory/user_store.go:252-285 | a user update, which refreshes nothing, leaves every derived label exact |
| DirectoryRuns.ExactIsFixpoint | internal/labels/store.go:274-290 | an exact view is one that a full refresh does not change, and conversely |
| DirectoryRuns.HandRowsAreKept | internal/labels/store.go:304-310 | membership of a manual or dynamic label survives every step that is not about that label or host |
| Directory.RefreshIsExact | internal/labels/store.go:274-290 | a refresh makes every derived row in its scope agree with the derivation |
| Directory.RefreshKeepsOtherRows | internal/labels/store.go:304-310 | a refresh leaves rows outside its scope and rows of manual and dynamic labels |
| Directory.SameDerivation | internal/labels/store.go:505-582 | whether a host belongs to a derived label depends on its preferred address, the label's criteria and the identity columns of the directory only |
| Directory.ResolutionIsUnique | internal/labels/store.go:505-540 | a host resolves to at most one user |
| Directory.ResolutionExists | internal/labels/store.go:505-540 | a host with a preferred address resolves to a user whenever some active user answers to it |
| Directory.ResolvesByPreference | internal/labels/store.go:497-540 | a host resolves, by its manual address or else its Orbit profile's, exactly to the active user with that email or principal name before whom no other comes: email matches first, then directory users, then the least id |
| Directory.MeetsByValue | internal/labels/store.go:542-582 | a user meets criteria exactly when one of their values, trimmed of spaces and not empty, is its department, its id in decimal or the external id of one of its groups, as the attribute says |
| Directory.BTrimDropsSpaces | internal/labels/store.go:542-582 | what is trimmed from a value are exactly the spaces at its ends |
| Directory.NormalizedInOrder | internal/labels/model.go:223-233 | normalized criteria have the nonblank values, trimmed, in order and as often as given |
| DirectoryStore.Store.ResolvePrimaryUser | internal/labels/store.go:505-540 | the lookup finds the user that outranks all others that answer, or none; it is active and has the manual address, or the Orbit profile's where there is no manual one |
| DirectoryStore.Store.MatchingMemberships | internal/labels/store.go:542-582 | the union of the department, group and user branches is the set of derivable rows in scope |
| DirectoryStore.Store.RefreshDerived | internal/labels/store.go:274-290 | validation, deletion and insertion in order leave in scope exactly the hosts whose resolved user meets the criteria and nothing changed outside it, or nothing at all and a refusal |
| DirectoryStore.Store.ReplaceMembership | internal/labels/store.go:441-477 | the branch on the membership type leaves no row of the old type behind |
| DirectorySteps.WrittenLabel | internal/labels/store.go:441-477 | after a write the label has no rows, the listed hosts' or the derived ones, by its type, and other labels keep theirs |
| DirectorySteps.RefusedLabel | internal/labels/store.go:73-152 | a refused write changes nothing and was for another label's name, a host listed twice, a host that is not there, or the criteria |
| DirectorySteps.CheckedIsAccepted | internal/labels/model.go:133-221 | a mutation of a type is accepted exactly when it has a name and the query, criteria or hosts of the type and no others, the criteria with a known attribute and a value that is not blank |
| DirectorySteps.CheckedRow | internal/labels/model.go:133-173 | the row written for it has the trimmed name and query or the normalized criteria |
| DirectoryStore.Store.CreateLabel | internal/labels/store.go:73-115 | creation writes the label and its membership, or rolls both back |
| DirectoryStore.Store.UpdateLabel | internal/labels/store.go:117-152 | update writes label and membership, changes of type included, or rolls both back |
| DirectoryStore.Store.DeleteLabel | internal/labels/store.go:154-167 | deletion takes the label's rows with it |
| DirectoryStore.Store.DynamicMembershipValues | internal/labels/store.go:217-234 | the loop with a seen map refuses a repeated label and otherwise splits the results into ids and matches |
| DirectoryStore.Store.SetDynamicMemberships | internal/labels/store.go:179-215 | only rows of the host for reported, applicable dynamic labels change, and they become the results |
| DirectorySteps.SetDynamicRows | internal/labels/store.go:179-215 | afterwards the host is in a reported dynamic label exactly when it matched, every other row is as it was, and the answer counts the dynamic labels reported |
| DirectorySteps.SetDynamicRefuses | internal/labels/store.go:179-234 | results are refused exactly for a label named twice, or for a match of a host that is not there, and then change nothing |
| DirectoryStore.Store.Enroll | internal/hosts/enrollment_store.go:183-215 | enrolment gives a host the all-hosts label and leaves all other membership |
| DirectoryStore.Store.DeleteHost | internal/hosts/store.go:28-37 | a deleted host takes its rows and sources with it |
| DirectoryStore.Store.DeleteHosts | internal/hosts/store.go:40-53 | so do several |
| DirectoryStore.Store.UpsertPrimaryUser | internal/hosts/primary_user_store.go:49-75 | a source is set and the host's derived rows are refreshed, or nothing changes |
| DirectoryStore.Store.DeletePrimaryUser | internal/hosts/primary_user_store.go:77-108 | a source is cleared and the host's derived rows are refreshed |
| DirectoryStore.Store.CreateUser | internal/directory/user_store.go:175-203 | a local user is created with its role and all derived rows, or nothing changes |
| DirectorySteps.CreatedUser | internal/directory/user_store.go:175-203 | the new user is local and active with the given columns and role under the next id, and is refused exactly for the address of another active local user before the role and the refresh are looked at |
| DirectoryStore.Store.UpdateUser | internal/directory/user_store.go:252-285 | only a local user's name and password change, and the role |
| DirectoryStore.Store.DeleteUser | internal/directory/user_store.go:382-418 | a local user is removed, a provider user tombstoned, and all derived rows refreshed |
| DirectoryRuns.SnapshotIsAccepted | internal/directory/provider_store.go:164-219 | in a consistent state a snapshot is accepted exactly when no two of its enabled users have the same trimmed principal name or the same address, which is the trimmed mail or else the principal name |
| DirectoryRuns.SnapshotSetsActiveUsers | internal/directory/provider_store.go:164-219 | the source's active users are exactly the enabled entries of the snapshot, with their attributes |
| DirectoryRuns.SnapshotUser | internal/directory/provider_store.go:164-219 | a user of the source has every column as its entry says, and without an entry is a tombstone; users keep id, identity and password, and those of other sources are left |
| DirectoryRuns.SnapshotGroups | internal/directory/provider_store.go:129-162 | the source's groups are exactly the entries, with their names and under the ids they had, and other groups are left |
| DirectoryRuns.SnapshotMembers | internal/directory/provider_store.go:221-252 | a user of the source is in a group of the source exactly when its entry lists the group, and other memberships stay while their group does |
| DirectoryRuns.LastEntryWins | internal/directory/provider_store.go:40-127 | of several entries with one external id the last counts |
| DirectoryRuns.SnapshotIsIdempotent | internal/directory/provider_store.go:15-38 | applying a snapshot again is accepted and changes nothing but the id sequences |
| DirectoryStore.Store.ApplyProviderSnapshot | internal/directory/provider_store.go:15-38 | the transaction meets the snapshot relation: other sources untouched, row ids kept per external id, absent users tombstoned, absent groups dropped, memberships replaced |
| DirectoryStore.Store.ReconcileGroups | internal/directory/provider_store.go:129-162 | upsert and delete leave exactly the snapshot's groups of the source |
| DirectoryStore.Store.ReconcileUsers | internal/directory/provider_store.go:164-219 | tombstoning first and upserting then leaves exactly the snapshot's users of the source active, or is refused for a collision |
| DirectoryStore.Store.UpsertUsers | internal/directory/provider_store.go:164-219 | the upsert, in any order, succeeds exactly when no two enabled entries collide, and then writes every entry |
| DirectoryStore.Store.TombstoneUsers | internal/directory/provider_store.go:164-175 | every user of the source is tombstoned and no other |
| DirectoryStore.Store.ReconcileMemberships | internal/directory/provider_store.go:221-252 | memberships between the source's users and groups become the snapshot's; the others stay |
| DistributionRuns.RunsStayConsistent | internal/munki/mdp/store.go:117-316 | in every reachable state positions are distinct and non-negative, names and keys unique, and sessions, rejections and mirror rows have an enabled or existing point |
| DistributionRuns.SessionHasOrigin | internal/munki/mdp/worker_store.go:25-67 | every session was claimed with the key its enabled point has now, has belonged to that connection since, and expires one TTL after that claim or its last renewal |
| DistributionRuns.LiveSessionIsRecent | internal/munki/mdp/worker_store.go:108-129 | a session live at a time was claimed or renewed by its own connection less than 15 seconds before |
| DistributionRuns.SupersededConnectionIsFenced | internal/munki/mdp/worker_store.go:108-143 | once another connection has claimed a point, no renewal, release or report of the old one has any effect until it claims again |
| DistributionRuns.OnlyAClaimRevives | internal/munki/mdp/worker_store.go:36-58 | a point without a live worker gets one only through a claim |
| DistributionRuns.WritesDoNotInterleave | internal/munki/mdp/worker_store.go:25-143 | with unique connection ids the writes of two connections to a point (accepted claims, renewals and reports, and releases that end a session) never interleave |
| DistributionRuns.EligibleAfterNewInstaller | internal/munki/mdp/store.go:414-477 | after a package gets a new installer, a point that has not reported since is eligible if and only if it serves at all and its last report before the change already named the new hash |
| DistributionRuns.RevertedInstallerNeedsNoReport | internal/munki/mdp/store.go:414-477 | inside any run, when the installer changes and goes back to what a point last reported, the point is eligible again without a report exactly when it serves, and in between only if the content was the same |
| DistributionRuns.RevertedRun | internal/munki/mdp/store.go:414-477 | a run in which that happens |
| DistributionRuns.ReorderPlaces | internal/munki/mdp/store.go:273-316 | a reorder is accepted exactly for a permutation of the ids, or when there are none, and then gives the i-th id position i |
| DistributionStore.Store.Create | internal/munki/mdp/store.go:117-171 | a point is created at the first position after the others, or refused for its name |
| DistributionStore.Store.Update | internal/munki/mdp/store.go:174-225 | an update keeps position and key; disabling clears the worker's state |
| DistributionStore.Store.Delete | internal/munki/mdp/store.go:228-241 | deletion takes session, rejection and mirror rows along and leaves the other positions |
| DistributionStore.Store.RotateKey | internal/munki/mdp/store.go:244-269 | a new key ends the session |
| DistributionStore.Store.Negate | internal/munki/mdp/store.go:273-316 | phase one of a reorder, in any row order, keeps positions distinct after every single row |
| DistributionStore.Store.Restore | internal/munki/mdp/store.go:273-316 | phase two, in any row order, keeps positions distinct after every single row |
| DistributionStore.Store.Reorder | internal/munki/mdp/store.go:273-316 | both phases together are the specified reorder |
| DistributionStore.Store.ClaimWorkerSession | internal/munki/mdp/worker_store.go:25-67 | a claim with the current key of an enabled point supersedes any session |
| DistributionStore.Store.ObserveRejectedWorker | internal/munki/mdp/worker_store.go:71-104 | a rejection is recorded for a claim that was refused |
| DistributionStore.Store.RenewWorkerSession | internal/munki/mdp/worker_store.go:108-129 | only the live session of the connection is renewed |
| DistributionStore.Store.ReleaseWorkerSession | internal/munki/mdp/worker_store.go:133-143 | only the session of the connection is released |
| DistributionStore.Store.RecordPackageState | internal/munki/mdp/store.go:542-610 | a report is stored only for the live session of the connection |
| DistributionStore.Store.CandidatesForClients | internal/munki/mdp/store.go:335-397 | every IPv4 or IPv6 address, a mapped one unmapped, gets exactly the enabled points with a range that covers it, by position and, where positions are equal, by id |
| DistributionStore.Store.ResolveForClient | internal/munki/mdp/store.go:414-477 | the answer is eligible and has the least position of all eligible points, and the least id of those with that position; there is none only if no point is eligible |
| DistributionStore.Store.Matching | internal/munki/mdp/store.go:359-369 | the rows for one address are exactly the enabled points with a range that covers it, each once, by position and id |
| DistributionPoints.EligibleMeans | internal/munki/mdp/store.go:414-477 | a point is eligible exactly when it is enabled, covers the unmapped address, has a URL and an unexpired session, and last reported the package current with the hash of its present installer |
| Projection.BuildRepositoryProjection | internal/munki/projection.go:15-61 | the passes end, and the included ids are exactly those reachable from the effective ids through requires, update_for and reverse update_for; the packages are those at strictly increasing positions of the repository, which are exactly the positions of packages with an included id |
| Projection.ReachableIsLeast | internal/munki/projection.go:15-61 | the included ids lie in every closed set that holds the effective ids |
| Projection.ClosedByReference | internal/munki/projection.go:15-110 | a closed set of ids holds what its packages require and are updates for, by id or every version of the software, and every update for one of them |
| Projection.ReferencesClose | internal/munki/projection.go:15-110 | and a set that holds these is closed, so the included ids are the least that hold them |
| Projection.ProjectionIsMonotone | internal/munki/projection.go:15-61 | more effective packages never hide a package |
| Projection.ProjectionIsIdempotent | internal/munki/projection.go:15-61 | projecting the projected ids adds nothing |
| Projection.ProjectionIgnoresOrder | internal/munki/projection.go:15-61 | the projected ids do not depend on the order of the repository |
| Projection.Pass | internal/munki/projection.go:23-43 | a pass with a software-id set taken before it adds only reachable ids, strictly grows when it reports a change, and otherwise leaves a closed set |
| Projection.AddReferences | internal/munki/projection.go:73-98 | a reference adds its package, or every version of its software |
| Projection.IncludedSoftwareIDs | internal/munki/projection.go:63-71 | the software of the included packages |
| RepositoryService.Catalog | internal/munki/service.go:81-94 | the catalog renders the visible packages, each once and in the repository's order; there is none exactly when the name is another, or some visible installer is not finalized, and then the first such package is the error |
| RepositoryService.CatalogItems | internal/munki/service.go:285-302 | items are the packages' renderings, or the first unfinalized package is named |
| RepositoryService.ObjectsForPackages | internal/munki/service.go:304-345 | one query finds for each package its own installer and icon |
| RepositoryService.ResolvePackageFile | internal/munki/service.go:132-178 | a key resolves exactly to the visible package and finalized object it is the canonical location of; an unfinalized installer is an error of its own |
| RepositoryService.ServesMeans | internal/munki/service.go:132-180 | a key serves a visible package that needs an installer, with its own available object, and is written from the package's id and the object's file name |
| RepositoryService.ListedIsServed | internal/munki/service.go:132-178 | the location in a catalog item is a key that serves its package exactly when the file name has no slash |
| RepositoryService.SlashedFileIsNotServed | internal/munki/packages/pkginfo.go:238-245 | a package whose file name has a slash: its catalog item shows a location that serves nothing |
| RepositoryService.ServedIsListed | internal/munki/service.go:81-178 | every key that resolves is the location some catalog item shows |
| RepositoryService.ResolveIconFile | internal/munki/service.go:182-210 | an icon resolves exactly by the name it is rendered with |
| RepositoryService.IconHashes | internal/munki/service.go:97-120 | there is an entry for exactly the names of the available visible icons, and the last icon with a name gives the hash |
| RepositoryService.HashedIsServed | internal/munki/service.go:97-210 | an entry of the hash list is an icon that downloads with that hash if and only if its name is not empty |
| RepositoryService.NamelessIconsShareAnEntry | internal/munki/service.go:109-117 | two icons whose files have no name: one entry, with the hash of one of them |
| RepositoryService.LocationParses | internal/munki/packages/pkginfo.go:232-270 | an installer location parses to its package exactly when the file name is non-empty and has no slash |
| RepositoryService.IconParses | internal/munki/packages/pkginfo.go:248-263 | an icon name parses to its object exactly when the file has a name |
| RepositoryService.IconNamesAreInjective | internal/munki/packages/pkginfo.go:248-253 | two objects share an icon name only if they are one file of one object |
| Pkginfo.RenderPkginfo | internal/munki/packages/pkginfo.go:23-31 | there is a rendering exactly when the package needs no installer or has a finalized one |
| Pkginfo.Render | internal/munki/packages/pkginfo.go:156-229 | each field of the document is the specified one, absent where it is empty |
| Pkginfo.LaunchMap | internal/munki/packages/pkginfo.go:301-310 | the map of launch arguments, a repeated application keeping its last |
| Pkginfo.EnvironmentMap | internal/munki/packages/pkginfo.go:320-329 | the map of environment variables |
| Pkginfo.RowList | internal/munki/packages/pkginfo.go:331-388 | rows under their native member names, in order |
| Pkginfo.RemovalList | internal/munki/packages/pkginfo.go:364-377 | what a removal keeps of a copied item |
| PkginfoDocument.InstallerIsWritten | internal/munki/packages/pkginfo.go:156-229 | the document has the installer's hash and size where they are known, and nothing of it for a nopkg package |
| PkginfoDocument.LocationIsWritten | internal/munki/packages/pkginfo.go:232-270 | and its location, written from the package's id and the file name |
| PkginfoDocument.IconIsWritten | internal/munki/packages/pkginfo.go:156-262 | and the icon's name and hash |
| PkginfoDocument.DefaultsAreLeftOut | internal/munki/packages/pkginfo.go:156-229 | the installer type pkg and the download mode auto are left out, others are written |
| PkginfoDocument.ReferencesAreWritten | internal/munki/packages/pkginfo.go:279-288 | references are written in order, each as the trimmed name and, with a version, two dashes and the trimmed version |
| PkginfoDocument.RemovalsAreWritten | internal/munki/packages/pkginfo.go:364-377 | exactly under remove_copied_items every copied item is written as its source, destination path and destination item |
| PkginfoDocument.LaunchKeepsLast | internal/munki/packages/pkginfo.go:301-310 | an application keeps the arguments of its last entry |
| PkginfoDocument.EnvironmentKeepsLast | internal/munki/packages/pkginfo.go:320-329 | a variable keeps its last value |
| PkginfoDocument.RowKeepsValues | internal/munki/packages/pkginfo.go:331-388 | every member of a row keeps its value under its native name |
| PkginfoDocument.NativeNamesAre | internal/munki/packages/pkginfo.go:331-388 | which members have a native name of their own, and which |
| PkginfoImporter.ImportPkginfo | internal/munki/pkginfo_import.go:35-104 | accepts exactly the importable documents whose patch meets the contract, and returns the specified import, with the document's installer hash or none |
| PkginfoImporter.Importer.ReadIdentity | internal/munki/pkginfo_import.go:41-57 | name and software fields leave the document |
| PkginfoImporter.Importer.ReadNames | internal/munki/pkginfo_import.go:58-69 | API names are refused, native ones renamed, and None becomes null |
| PkginfoImporter.Importer.ReadVersion | internal/munki/pkginfo_import.go:70-78 | version and installer type, which is pkg when omitted, must be nonblank |
| PkginfoImporter.Importer.ReadBlocking | internal/munki/pkginfo_import.go:167-196 | launch arguments become a list; no blocking applications are told from unknown ones |
| PkginfoImporter.Importer.ReadRelations | internal/munki/pkginfo_import.go:198-222 | references leave the document, parsed |
| PkginfoImporter.Importer.ReadLists | internal/munki/pkginfo_import.go:224-252 | rows of the three lists get their API names or are refused |
| PkginfoImporter.Importer.ReadVariables | internal/munki/pkginfo_import.go:254-276 | the environment becomes a list in the order of names |
| PkginfoImporter.Importer.ReadAlerts | internal/munki/pkginfo_import.go:278-301 | null disables an alert, an object with native members enables it |
| PkginfoImporter.Importer.ReadObjects | internal/munki/pkginfo_import.go:106-135 | object and removal fields are checked and dropped, and the hash is the document's, or empty where it has none |
| PkginfoImporter.ReadRemovals | internal/munki/pkginfo_import.go:303-328 | items to remove are accepted exactly when they are the copied items' parts and remove_copied_items manages them |
| PkginfoOmissions.OmittedStayUnmanaged | internal/munki/pkginfo_import.go:32-34 | no omitted metadata field becomes managed if and only if the document has an installer type and its launch arguments, if any, come with blocking applications |
| PkginfoOmissions.AcceptedOmissions | internal/munki/pkginfo_import.go:167-196 | the same condition on the fields of any document that is accepted |
| PkginfoOmissions.OmittedTypeIsManaged | internal/munki/pkginfo_import.go:70-72 | an accepted document without an installer type, whose import manages it as pkg |
| PkginfoOmissions.OmittedBlockersAreManaged | internal/munki/pkginfo_import.go:186-194 | an accepted document with launch arguments and no blocking applications, whose import manages blocking_applications_none |
| PkginfoImport.SortNames | internal/munki/pkginfo_import.go:177-177 | the names in increasing order, each once |
| PkginfoValues.ReadRow | internal/munki/pkginfo_import.go:235-247 | renaming alias by alias, in any order, is the specified renaming, and an API name is refused |
| PkginfoValues.ReadReferences | internal/munki/pkginfo_import.go:200-217 | all references parse, in order, or none are returned |
| PkginfoAccepted.ReferenceIsRead | internal/munki/pkginfo_import.go:198-222 | a reference is split at its first double dash into a valid name and a version that is not blank, both trimmed, or is refused |
| PkginfoAccepted.NameAloneIsRead | internal/munki/pkginfo_import.go:198-222 | without one it is a valid name alone, or is refused |
| PkginfoAccepted.ReferencesAreRead | internal/munki/pkginfo_import.go:198-222 | a list gives references exactly when it is an array of texts, null being empty, that are read one by one in order |
| PkginfoAccepted.ValidNames | internal/munki/software/model.go:91-105 | a name is valid exactly when it is not blank, has no slash, and does not end in a dash or a double dash and something that starts with a digit |
| PkginfoAccepted.AfterDashesEnds | internal/munki/software/model.go:91-105 | what is looked at follows a double dash and has none itself |
| PkginfoAccepted.LessByPosition | internal/munki/pkginfo_import.go:177-177 | the order of names is the dictionary's |
| PkginfoAccepted.BlockingIsRead | internal/munki/pkginfo_import.go:169-196 | there are explicitly no blocking applications exactly when their list is there and empty and no application has launch arguments |
| PkginfoAccepted.EmptyLaunchIsRefused | internal/munki/pkginfo_import.go:169-196 | launch arguments of no application at all are refused by the contract |
| PkginfoAccepted.RemovalsFitMeans | internal/munki/pkginfo_import.go:303-328 | items to remove are accepted exactly under remove_copied_items and as the sources and destinations of the copied items, in order |
| PkginfoAccepted.InstallerFitsMeans | internal/munki/pkginfo_import.go:106-135 | a location must be a text, a hash a text that is not blank, and a size a 64-bit integer that is not negative |
| PkginfoAccepted.HashIsCarried | internal/munki/pkginfo_import.go:106-135 | the hash of an accepted document is imported as it is |
| PkginfoAccepted.TextContract | internal/munki/packages/model.go:26-125 | the values that the installer type, uninstall method, restart actions and download mode may have, and which of them null clears |
| PkginfoAccepted.ContractFields | internal/munki/pkginfo_import.go:35-104 | a field that the contract of a package does not have is refused |
| Renaming.RenameMembers | internal/munki/pkginfo_import.go:155-160 | renaming members one by one under distinct aliases is renaming them at once |
| PkginfoIdentity.RenderThenImport | internal/munki/pkginfo_import.go:35-104 | a rendered managed package is importable and its import gives name, software, installer hash, normalized metadata and references back, if and only if no icon is rendered, no enabled alert is empty, and all reference names are plain |
| PkginfoIdentity.SilentAlertIsLost | internal/munki/packages/pkginfo.go:397-411 | a managed package that fails the condition by an enabled alert without texts alone |
| PkginfoIdentity.DashedReferenceIsLost | internal/munki/packages/pkginfo.go:279-288 | one that fails it by a reference to software with a double dash in its name alone |
| PkginfoIdentity.IconIsLost | internal/munki/pkginfo_import.go:107-111 | one that fails it by an icon alone |
| PkginfoIdentity.MetadataReturns | internal/munki/packages/model.go:463-584 | the patch applied to an empty mutation and normalized is the metadata with launch arguments and environment sorted by name and disabled alerts cleared, if and only if no enabled alert is empty |
| PkginfoPatch.PatchIsAccepted | internal/munki/pkginfo_import.go:97-103 | the patch of a rendered managed package without an icon passes the package contract |
| PkginfoRoundTrip.RenderingFits | internal/munki/pkginfo_import.go:35-104 | apart from references, a rendered managed package is importable exactly when no icon is rendered |
| PkginfoRoundTrip.ReferenceRoundTrip | internal/munki/packages/pkginfo.go:13-20 | name and version of a reference come back exactly when no earlier "--" occurs than the one between them |
| PkginfoRoundTrip.PlainNames | internal/munki/pkginfo_import.go:207-213 | that is when the name contains no "--" and, under a version, does not end in "-" |
| PkginfoRoundTrip.ReferencesReturn | internal/munki/pkginfo_import.go:198-222 | a list of references comes back exactly when all its names are plain |
| PkginfoRoundTrip.LaunchRoundTrip | internal/munki/pkginfo_import.go:170-185 | the map of launch arguments comes back as the list sorted by application |
| PkginfoRoundTrip.EnvironmentRoundTrip | internal/munki/pkginfo_import.go:254-276 | the map of environment variables comes back as the list sorted by name |
| PkginfoRoundTrip.SortedListsKeepEntries | internal/munki/pkginfo_import.go:177-177 | sorting neither loses nor repeats an entry of metadata with distinct names |
| PkginfoRoundTrip.RowsRoundTrip | internal/munki/pkginfo_import.go:224-252 | rows of every kind come back from their native names |
| PkginfoRoundTrip.AlertRoundTrip | internal/munki/packages/pkginfo.go:397-411 | an alert is rendered exactly when it is enabled and says something, and then comes back enabled with its texts |
| PkginfoRoundTrip.CopiesAreNative | internal/munki/packages/pkginfo.go:353-362 | copied items keep their member names |
| PackageMutations.Draft.Normalize | internal/munki/packages/model.go:463-524 | trimming in place, slice by slice, is the specified normalization |
| PackageMutations.NormalizedIsIdempotent | internal/munki/packages/model.go:463-524 | normalizing twice is normalizing once |
| PackageMutations.NormalizedTextIsClean | internal/munki/packages/model.go:463-524 | the listed text fields end up without space at their ends, the others unchanged, and installer type and download mode get their defaults |
| PackageMutations.NormalizedFields | internal/munki/packages/model.go:463-490 | which fields are trimmed, the two defaults, and that every other field stays |
| PackageMutations.NormalizedListsAreClean | internal/munki/packages/model.go:463-524 | names in the four lists end up without space at their ends |
| PackageMutations.NormalizedRowIsClean | internal/munki/packages/model.go:463-524 | required texts of rows end up without space at their ends, and nothing else in a row changes |
| PackageMutations.ValidateRelations | internal/munki/packages/model.go:403-460 | the checks in order accept exactly the mutations that meet all relations |
| PackageMutations.AreDistinct | internal/munki/packages/model.go:428-458 | the loop with a seen map finds a repetition exactly when there is one |
| MergePatch.Merge | internal/patch/patch.go:110-139 | merging in place, member by member in any order, is the MergePatch algorithm of section 2 of RFC 7396, and ends |
| MergePatch.MergedAt | internal/patch/patch.go:110-139 | every path of the result is accounted for: unnamed paths keep their value, null removes, nothing survives below a replaced value |
| MergePatch.EmptyPatchIsIdentity | internal/patch/patch.go:110-139 | an empty object changes no object |
| MergePatch.MergeIsIdempotent | internal/patch/patch.go:110-139 | applying a patch twice is applying it once |
| MergePatch.MergeAddsNoNull | internal/patch/patch.go:110-139 | merging an object patch creates no null member |
| MergePatch.MergeKeepsContract | internal/patch/patch.go:53-139 | a conforming document stays conforming under every accepted patch, at every depth and under any rule for single values |
| MergePatch.MergeKeepsFields | internal/patch/patch.go:53-78 | what checkFields demands is kept by merging accepted patches |
| MergePatch.FieldsByPath | internal/patch/patch.go:53-78 | a value passes checkFields exactly when at every path into it that the contract looks at, the contract has a place, and a nullable one where the value is null |
| InventoryStore.Store.ReplaceHostSoftware | internal/inventory/projection_store.go:11-26 | the transaction meets the replacement relation: catalog rows kept or added once per key, the host's rows exactly the snapshot's with the last position winning, other hosts untouched |
| InventoryStore.Store.StageSnapshot | internal/inventory/projection_store.go:28-122 | the staged entries are the named ones, in order and as often as observed |
| Inventory.NamedInOrder | internal/inventory/projection_store.go:28-122 | the named entries are those at the increasing positions whose name is not empty |
| Inventory.ReplacedOutcome | internal/inventory/projection_store.go:11-60 | a snapshot is refused exactly for a named entry with an unknown source, or for one on a host that is not there, and then changes nothing but the sequences |
| InventoryStore.Store.ReconcileTitles | internal/inventory/projection_store.go:124-185 | titles are upserted once per identity key and every entry is linked to its own |
| InventoryStore.Store.InsertVersions | internal/inventory/projection_store.go:186-223 | versions are inserted once per key, first position first |
| InventoryStore.Store.ReplaceRows | internal/inventory/projection_store.go:225-275 | software and path rows of the host are replaced |
| Inventory.EntryHasOneVersion | internal/inventory/projection_store.go:124-223 | every named entry stands for exactly one title and one version |
| Inventory.TitlesSharedByKey | internal/inventory/projection_store.go:124-185 | two entries share a title exactly when their identity keys agree |
| Inventory.StoredTitle | internal/inventory/projection_store.go:124-179 | a title has its entry's source, extension host and bundle identifier, or name without one, and is another entry's exactly when these agree |
| Inventory.StoredVersion | internal/inventory/projection_store.go:181-223 | a version has all nine identifying columns of its entry, and is another entry's exactly when the version, extension id, vendor, architecture, release and title identity agree |
| Inventory.NewVersionName | internal/inventory/projection_store.go:181-205 | a new version is named by the first entry that is of it, and an old one keeps its row |
| Inventory.KeptTitle | internal/inventory/projection_store.go:124-158 | an old title keeps its row but for the vendor, which is the last one its entries give |
| Inventory.NewTitleRow | internal/inventory/projection_store.go:124-158 | a new title is named by its first entry, with the last vendor its entries give |
| Inventory.StoredPath | internal/inventory/projection_store.go:247-275 | a stored path has the signature, hash and executable of the last entry of its version and path |
| Inventory.ReplacementIsIdempotent | internal/inventory/projection_store.go:11-26 | reporting the same software again changes nothing but the sequences |
| InventoryStore.Store.PruneUnreferencedSoftware | internal/inventory/cleanup_store.go:19-32 | the batches end with every unreferenced version and then every version-less title gone and nothing else, and the totals count them |
| InventoryStore.Store.PruneBatch | internal/inventory/cleanup_store.go:34-84 | one batch stays between the tables and their pruned form, and removes less than the batch size only when nothing is left to remove |
| InventoryStore.Store.PruneVersions | internal/inventory/cleanup_store.go:34-60 | a batch removes at most its limit of unreferenced versions, the smallest ids first, and fewer only if it removes all |
| InventoryStore.Store.PruneTitles | internal/inventory/cleanup_store.go:61-84 | a batch removes at most its limit of version-less titles, the smallest ids first, and fewer only if it removes all |
| Inventory.PrunedIsFixpoint | internal/inventory/cleanup_store.go:19-32 | pruning leaves nothing more to prune |
| Inventory.PrunedIsConsistent | internal/inventory/cleanup_store.go:19-32 | pruning keeps keys and references intact and removes no path |
| InventoryGrouping.BuildHostSoftwares | internal/inventory/host_store.go:109-118 | accumulating in place through pointers and a map of indices is the two-level group-by in first-seen order |
| InventoryGrouping.Accumulator.Add | internal/inventory/host_store.go:124-147 | one row changes its title and version as the group-by says |
| InventoryGrouping.Accumulator.VersionIndex | internal/inventory/host_store.go:160-175 | the index of a version is found or appended, and no stored index moves |
| InventoryGrouping.OrderedGroup.Get | internal/inventory/ordered_group.go:15-25 | a key's cell is found or appended in order |
| InventoryGrouping.OrderedGroup.Values | internal/inventory/ordered_group.go:27-33 | the values come out in the order their keys were first seen |
| InventoryGrouping.PairKeyIsInjective | internal/inventory/host_store.go:160-175 | the string key tells title and version apart |
| InventoryGrouping.PathsAreConserved | internal/inventory/host_store.go:124-147 | the result has as many paths as there are rows with one |
| InventoryReadBack.SnapshotReadsBack | internal/inventory/host_store.go:60-118 | after a replacement the grouping of the joined rows shows a version for every entry of the snapshot and only such versions, each with the times of its last entry and, for every path, the path as its last entry gave it |
| InventoryReadBack.VersionShows | internal/inventory/host_store.go:124-175 | a version is shown with its first row's version, bundle and time, and with one path for each of its rows that has one, in order, as the row gives it |
| InventoryReadBack.TitleShows | internal/inventory/host_store.go:124-147 | a title is shown with its first row's name, source and extension host |
| QueryNames.NameRoundTrip | internal/osquery/dispatch.go:34-82 | a name parses to its kind and suffix, unless it is a report's or has none |
| QueryNames.ParsePrints | internal/osquery/dispatch.go:64-82 | a name that parses is printed again from what it parsed to |
| QueryNames.NamesAreInjective | internal/osquery/dispatch.go:34-40 | names agree only if kind and suffix do |
| QueryNames.EvaluationRoundTrip | internal/osquery/dispatch.go:48-134 | every policy evaluation survives printing and parsing |
| QueryNames.ParsedEvaluation | internal/osquery/dispatch.go:92-134 | what parses as an evaluation is an id, a hash of 64 hexadecimal digits, a revision and a sequence, all positive, with underscores between |
| QueryNames.EvaluationNamesAreInjective | internal/osquery/dispatch.go:48-56 | an evaluation's name tells which it is |
| QueryNames.IDNamesAreInjective | internal/osquery/dispatch.go:38-40 | so does the name of an id |
| QueryNames.ForeignNameCollides | internal/osquery/dispatch.go:84-90 | a label name that was not issued stands for an issued label exactly when its suffix is not the printed id |
| QueryNames.SignedSuffixIsAccepted | internal/osquery/dispatch.go:84-90 | such suffixes exist: a sign is accepted |
| QueryDispatch.DistributedRead | internal/osquery/service.go:182-286 | the query map holds exactly one entry per piece of work, and nothing else |
| QueryDispatch.IssuedTexts | internal/osquery/dispatch.go:34-56 | each piece of work is in the map under the text of its name with its SQL, and the map has no more entries than there is work |
| QueryDispatch.NothingIsOverwritten | internal/osquery/service.go:201-239 | no queue method overwrites an entry of an earlier one |
| QueryDispatch.NamesRouteBack | internal/osquery/dispatch.go:34-134 | the name of a piece of work parses back to it |
| QueryDispatch.DispatchWriteResults | internal/osquery/dispatch.go:167-290 | results of each kind are routed in the order they come, the rows of successful required or optional detail queries that are not deferred are ingested as they came, and the inventory is fresh exactly when every required detail query came back with success |
| QueryDispatch.LabelOutcomeMeans | internal/osquery/dispatch.go:209-244 | a label name gives a result exactly when its id is positive and its status is zero, which matches when there are rows |
| QueryDispatch.PolicyOutcomeMeans | internal/osquery/dispatch.go:397-437 | a policy name gives a result exactly when its evaluation parses: an error with the agent's message, or a pass or failure by the rows |
| QueryDispatch.LiveOutcomeMeans | internal/osquery/dispatch.go:465-489 | a live name gives its rows, status and message exactly when its id is positive |
| QueryDispatch.FreshWhenComplete | internal/osquery/dispatch.go:343-395 | the flag for failures adds nothing to having seen every required query succeed |
| QueryDispatch.EchoedLabelsAreDistinct | internal/osquery/dispatch.go:209-244 | answers under issued names never report a label twice |
| QueryDispatch.IssuedIsCanonical | internal/osquery/dispatch.go:38-40 | every issued name is one of those |
| LabelResults.EchoedLabelsAreAccepted | internal/labels/store.go:217-234 | label results under issued names are never refused for repeating a label |
| LabelResults.SignedNameIsRefused | internal/labels/store.go:217-234 | an agent that answers for a label under its issued name and under its id with a sign has its label results refused |
| Heartbeats.Store.Record | internal/heartbeats/store.go:36-80 | the row is written when address or agent changed or the stored contact is old enough |
| Heartbeats.ThrottlingRefines | internal/heartbeats/store.go:36-80 | under one monotone clock the stored row stands for the last contact: same address and agent, never later, at most 30 seconds earlier |
| Heartbeats.StatusTellsContact | internal/hosts/projection_store.go:181-186 | a host heard within 4m30s is online and an online host was heard within 5m |
| Heartbeats.BetweenIsUndecided | internal/hosts/projection_store.go:181-186 | between the two, hosts with the same last contact may be online or not |
| Strings.CutJoined | internal/osquery/dispatch.go:64-82 | cutting recovers two halves exactly when the separator between them is the first |
| Strings.DecimalRoundTrip | internal/osquery/dispatch.go:84-90 | every 64-bit integer survives printing and parsing |
| Strings.ParsedInteger | internal/osquery/dispatch.go:84-90 | a sign or none and then digits parse to their value exactly when it fits 64 bits |
| Strings.TrimIsTrimmed | internal/munki/packages/pkginfo.go:13-20 | trimming yields a trimmed string and changes no trimmed one |
| Strings.TrimDropsSpaces | internal/munki/packages/pkginfo.go:13-20 | what is trimmed is exactly the white space at the ends |

## Left out

- HTTP handlers, routing, sessions, OIDC, configuration, logging, the web UI and job plumbing: wiring without deep state.
- SQL text, listing, filtering and paging: statements are modelled by what they do to tables.
- Weaker isolation than atomic transactions: SKIP LOCKED batches, and the two queries of ResolveForClient seeing two states.
- Labels SetMembership: it writes rows of any label directly and its callers are not modelled.
- setUserRoleByEmail, setLocalUserPasswordByEmail and updateAccount: they touch no column that derivation reads.
- Descriptions, display names and timestamps of labels, users and groups: copied fields no operation here reads.
- Position overflow: positions are 32-bit in the database and unbounded here.
- Email comparison is plain equality of text.
- Plist and JSON encodings as bytes: JSON texts are compared as values, and dates below a second are kept.
- Key and token generation: a new key is a parameter of the operation.
- Grant signing, object storage and client resources: opaque objects with an id, a file name, a hash and a flag.
- Manifests and their action lists: appending names once each is an easy member.
- Package.Mutation: a package here holds its metadata as such, so the projection is the identity.
- PkginfoImporter.ImportPkginfo: a document is a tree in this model's keys, so the objects of launch arguments and of the environment have names of the open kind; that is not a restriction on the JSON.
- DirectoryStore.Store.Enroll: the host's own columns and its heartbeat are not modelled, only that the host exists and its label rows.
- The error of each refused step: the importer's errors are one refusal; which check fails first is not told.
- QueryDispatch.DispatchWriteResults: errors of the components that take the results in (inventory, policies, live queries) are not modelled.
- InventoryStore.Store.PruneUnreferencedSoftware: rows locked by others are not skipped, since there are no others within a step.
