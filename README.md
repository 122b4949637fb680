# Ubuntu Pro client core, modelled in Dafny

This project models the decision-making core of the Ubuntu Pro client
(`ua`/`pro`), covering five areas:

- **The entitlement registry.** It covers:
  - lookup of an entitlement class by any of its valid names;
  - the sorted listing of valid service names, with beta services hidden unless allowed;
  - the depth-first dependency sort that yields the enable order (required services first) and the disable order (dependent services first).
- **The `u.pro.attach.auto.full_auto_attach.v1` endpoint.** One call attaches at most once. It then enables the requested services, retrying a bounded number of times with a two-second sleep between attempts. It ends in success, `BetaServiceError`, `EntitlementNotEnabledError`, `EntitlementNotFoundError`, `full-auto-attach-error` or the error of the attach. An exception raised inside an entitlement's own `enable()` would also end the call; the model's scripted `enable` never raises (see "Left out").
- **The attach actions.** These are:
  - cloud detection and the mapping of cloud-factory errors;
  - the detach that precedes a re-attach on a new instance;
  - the auto-attach token request and the mapping of HTTP 4xx errors;
  - the contract update, with its status persistence and instance-id caching;
  - enabling a service by name.
- **System information.** This covers:
  - parsing of the kernel release, from `uname` or `/proc/version_signature`;
  - `/etc/os-release` parsing;
  - LTS point-release normalisation and release/series extraction for the platform dictionary;
  - the `should_reboot` decision;
  - the priority rule of `get_machine_id`.
- **APT repository files.** This covers:
  - the credential probe;
  - writing the repository list file;
  - appending a `machine … login … password …` line to `/etc/apt/auth.conf` and removing it again;
  - the keyring/fingerprint key action;
  - the pin file.

Code that works by changing state is modelled imperatively:

- `Actions.Host` holds the configuration cache and an event trace.
- `Files.FileSystem` holds a path → file map and the external commands run.
- `Entitlements.SortState` holds the shared `visited` dict and `order` list of the sort.

Each method is proved equal to a specification function over values. The properties the code promises are then proved about those functions as lemmas.

The collaborators the core calls but does not contain are scripted by an `Actions.Env` value. They are:

- the contract server;
- the cloud identity code;
- `cli._detach`;
- each entitlement's `enable()`.

`Env` fixes what each collaborator answers. The model records what the core asked them as `Actions.Event`s in the trace. Properties such as "the contract update is requested at most once" and "every known service is enabled before the unknown ones are reported" are statements about that trace.

Modules:

- `Errors` holds the error kinds and `Result`.
- `Strings` holds Python's `split`/`join`/`strip` and lexicographic sorting.
- `Files`.
- `Entitlements`.
- `Actions`.
- `FullAutoAttach`.
- `System`.
- `Apt`.

Behaviour worth noting in the code:

- The attempt limit is `retries` only when it is truthy. So `retries=0` gives 3 attempts, and a negative value gives no attempt at all.
- The found names are enabled in the order of the candidate list, not in dependency order.
- The beta check on `enable` runs before the candidate list is built.

## Model

| member | source | states |
|---|---|---|
| Entitlements.FactoryFrom | uaclient/entitlements/__init__.py:42-45 | scanning from position k finds the first later entry listing the name, or raises EntitlementNotFoundError when none from k on lists it |
| Entitlements.EntitlementFactory | uaclient/entitlements/__init__.py:42-45 | the result is the first entry in declaration order whose valid names contain the name exactly; EntitlementNotFoundError exactly when no entry lists it |
| Entitlements.ValidServices | uaclient/entitlements/__init__.py:58-81 | the result is sorted and is a permutation of the listed names of the entries the beta filter keeps (argument or config allows beta); with all_names every valid name, duplicates kept |
| Entitlements.WithoutBetaMembers | uaclient/entitlements/__init__.py:62-67 | an entry survives the beta filter exactly when it is in the registry and not beta |
| Entitlements.ListedNamesMembers | uaclient/entitlements/__init__.py:69-81 | a name is listed exactly when some included entry contributes it (its presentation name, or one of its valid names with all_names) |
| Entitlements.ValidServicesMembers | uaclient/entitlements/__init__.py:58-81 | a name is in the listing exactly when some registry entry allowed by the beta rule contributes it |
| Entitlements.VisitFacts | uaclient/entitlements/__init__.py:104-130 | a visit only appends, keeps names unique and edge targets before sources, ends with the entry's name present, and adds only names of rank at most the entry's |
| Entitlements.ChildrenFacts | uaclient/entitlements/__init__.py:119-127 | the loop over the edge targets adds every remaining target, never the entry itself, and only names of lower rank, keeping uniqueness and edge order |
| Entitlements.ChildStep | uaclient/entitlements/__init__.py:119-127 | visiting one edge target adds that target and only names of lower rank than the parent, so the parent stays unvisited |
| Entitlements.RootsFacts | uaclient/entitlements/__init__.py:137-144 | the loop over the roots ends in a topological order holding every registry name once |
| Entitlements.SortSpecIsTopological | uaclient/entitlements/__init__.py:133-146 | the depth-first post-order lists every entry exactly once, nothing else, each edge target before its source |
| Entitlements.SortState.constructor | uaclient/entitlements/__init__.py:134-135 | the sort starts with an empty `visited` dict and an empty order |
| Entitlements.SortState.Visit | uaclient/entitlements/__init__.py:104-130 | the recursive visit mutates `order` exactly as the post-order specification says and keeps `visited` equal to the names appended |
| Entitlements.SortEntitlements | uaclient/entitlements/__init__.py:133-146 | the order is the depth-first post-order from the roots in declaration order and, with unique names, a topological order of the registry |
| Entitlements.EntitlementsEnableOrder | uaclient/entitlements/__init__.py:97-101 | the order is the depth-first post-order for the required-services edges and, with unique names, lists each entitlement once with every required service before the entitlements that require it |
| Entitlements.EntitlementsDisableOrder | uaclient/entitlements/__init__.py:90-94 | the order is the depth-first post-order for the dependent-services edges and, with unique names, lists each entitlement once with every dependent service before the entitlement it depends on |
| Actions.CloudFactoryUserError | uaclient/actions.py:139-158 | any cloud-factory error while attached is AlreadyAttachedError; otherwise no cloud and unknown kinds give UNABLE_TO_DETERMINE_CLOUD_TYPE, non-viable gives UNSUPPORTED_AUTO_ATTACH, unsupported gives NonAutoAttachImageError naming the cloud type |
| Actions.CloudInstance | uaclient/actions.py:124-165 | the result is Ok(None) exactly when auto-attach is disabled, and then nothing is consulted; otherwise the factory is consulted once; an instance is returned exactly when it yields one; a falsy factory answer is UserFacingError(UNABLE_TO_DETERMINE_CLOUD_TYPE); a factory exception is mapped by the CloudFactory error rules (which depend on whether the machine is attached); every failure is a cloud-detection error |
| Actions.DetachStep | uaclient/actions.py:168-180 | not attached is a no-op; attached with equal stringified ids raises AlreadyAttachedOnPROError naming the id, without detaching; otherwise one detach, failing with DETACH_AUTOMATION_FAILURE exactly when it returns non-zero |
| Actions.TokenUserError | uaclient/actions.py:72-77 | a contract error with a set code in [400, 500) becomes NonAutoAttachImageError(UNSUPPORTED_AUTO_ATTACH); every other error is raised unchanged |
| Actions.AutoAttachToken | uaclient/actions.py:67-79 | one token request; the token is the response's contractToken exactly when the response has that key; a response without it raises KeyError("contractToken"); a failed request gives the mapped error |
| Actions.AttachFollowUp | uaclient/actions.py:38-53 | URL and user-facing errors persist the status then update the messages; success caches the instance id only when it is truthy and ends with the message update; nothing is enabled or slept |
| Actions.AttachWithTokenStep | uaclient/actions.py:22-53 | the contract update comes first; it succeeds exactly when the update does; a failure re-raises its error leaving the cache as it was; success caches `instance-id` only for a truthy id |
| Actions.AutoAttachStep | uaclient/actions.py:56-81 | success exactly when a token comes back and the update succeeds; a failed token request never reaches the update; otherwise the attach runs with enabling allowed |
| Actions.EnableByName | uaclient/actions.py:84-101 | an unknown name raises EntitlementNotFoundError with no enable call; a known name gets exactly one enable call, whose outcome is returned and recorded in the trace |
| Actions.Host.GetCloudInstance | uaclient/actions.py:124-165 | the method's result and new state are those of the cloud-detection specification |
| Actions.Host.DetachBeforeAutoAttach | uaclient/actions.py:168-180 | the method's result and new state are those of the detach specification |
| Actions.Host.RequestAutoAttachToken | uaclient/api/u/pro/attach/auto/full_auto_attach/v1.py:41-55 | the method's result and new state are those of the token specification shared with `auto_attach` |
| Actions.Host.AttachWithToken | uaclient/actions.py:22-53 | the method's result, cache and trace are those of the attach specification |
| Actions.Host.AutoAttach | uaclient/actions.py:56-81 | the method's result and new state are those of the auto-attach specification |
| Actions.Host.EnableEntitlementByName | uaclient/actions.py:84-101 | the method's result and new state are those of the enable-by-name specification |
| Actions.Host.Sleep | uaclient/api/u/pro/attach/auto/full_auto_attach/v1.py:133 | a sleep only records itself; the cache is unchanged |
| FullAutoAttach.Limit | uaclient/api/u/pro/attach/auto/full_auto_attach/v1.py:70-73 | the limit is `retries` when it is set and non-zero, 3 otherwise |
| FullAutoAttach.IsAnyBeta | uaclient/api/u/pro/attach/auto/full_auto_attach/v1.py:58-66 | true exactly when some name resolves to a beta entitlement; unknown names are skipped |
| FullAutoAttach.Dedup | uaclient/api/u/pro/attach/auto/full_auto_attach/v1.py:101 | the candidate list has no repetitions and the same members as the requested names |
| FullAutoAttach.Found | uaclient/api/u/pro/attach/auto/full_auto_attach/v1.py:102 | holds exactly the candidates that name an entitlement |
| FullAutoAttach.NotFound | uaclient/api/u/pro/attach/auto/full_auto_attach/v1.py:102 | holds exactly the candidates that name no entitlement |
| FullAutoAttach.FoundNotFoundPartition | uaclient/api/u/pro/attach/auto/full_auto_attach/v1.py:102 | the found and not-found lists together are as long as the candidate list |
| FullAutoAttach.NothingNotFound | uaclient/api/u/pro/attach/auto/full_auto_attach/v1.py:123 | when no candidate is unknown, every candidate is found, in order |
| FullAutoAttach.TokenTrace | uaclient/api/u/pro/attach/auto/full_auto_attach/v1.py:82-85 | the token step appends the request, then the contract request and its follow-up only when a token came back |
| FullAutoAttach.DetachTrace | uaclient/api/u/pro/attach/auto/full_auto_attach/v1.py:80-85 | the detach step appends a detach only for a different instance, then the token step only when the detach succeeded |
| FullAutoAttach.PhaseTraceIs | uaclient/api/u/pro/attach/auto/full_auto_attach/v1.py:79-85 | the attach phase appends the cloud detection, detach, token and attach events, each only after the previous step succeeded |
| FullAutoAttach.PhaseTrace | uaclient/api/u/pro/attach/auto/full_auto_attach/v1.py:79-85 | the attach phase only appends to the trace, and appends exactly those events |
| FullAutoAttach.TokenEventKinds | uaclient/api/u/pro/attach/auto/full_auto_attach/v1.py:82-85 | the token step requests the contract update at most once, with the token and allow_enable, and never enables or sleeps |
| FullAutoAttach.DetachEventKinds | uaclient/api/u/pro/attach/auto/full_auto_attach/v1.py:80-85 | the detach and token steps request the contract update at most once and never enable or sleep |
| FullAutoAttach.PhaseEventKinds | uaclient/api/u/pro/attach/auto/full_auto_attach/v1.py:76-88 | the attach phase requests the update at most once and never enables or sleeps; when every collaborator succeeds it requests it with the returned token |
| FullAutoAttach.PhaseOutcome | uaclient/api/u/pro/attach/auto/full_auto_attach/v1.py:76-88 | the attach phase reaches its normal end exactly when every collaborator succeeds: success when nothing is requested, else on to enabling; its errors are never the endpoint's own failure |
| FullAutoAttach.PhaseFacts | uaclient/api/u/pro/attach/auto/full_auto_attach/v1.py:76-88 | the trace and outcome facts of the attach phase together |
| FullAutoAttach.PassFacts | uaclient/api/u/pro/attach/auto/full_auto_attach/v1.py:103-121 | the enable loop appends one enable per name it reaches and nothing else; run to the end it has tried every found name in order and counted at most one success each |
| FullAutoAttach.PassRunsToEnd | uaclient/api/u/pro/attach/auto/full_auto_attach/v1.py:105-121 | without a stopping CanEnableFailure the loop reaches the end, and its count is exactly the number of successful enables it made (a failure without such a reason is tried and not counted); with every enable succeeding it counts every name |
| FullAutoAttach.IterateFacts | uaclient/api/u/pro/attach/auto/full_auto_attach/v1.py:90-131 | an enabling attempt only enables; it never raises the endpoint's failure; its success means no candidate is unknown and every candidate was just enabled, in order (IterateOkEnables adds that each of those enables succeeded) |
| FullAutoAttach.LatchedFacts | uaclient/api/u/pro/attach/auto/full_auto_attach/v1.py:74-88 | with the latch set the attach is skipped; unset it requests the update at most once; neither enables nor sleeps |
| FullAutoAttach.TryKinds | uaclient/api/u/pro/attach/auto/full_auto_attach/v1.py:75-131 | one pass of the loop body requests the update at most once, never once the latch is set, and does not sleep |
| FullAutoAttach.TryRaised | uaclient/api/u/pro/attach/auto/full_auto_attach/v1.py:75-131 | one pass of the loop body never raises `full-auto-attach-error` |
| FullAutoAttach.TrySucceeded | uaclient/api/u/pro/attach/auto/full_auto_attach/v1.py:75-131 | with services requested, a pass succeeds only when every candidate is known and the trace ends with a successful enable of each candidate, in order |
| FullAutoAttach.LoopAttaches | uaclient/api/u/pro/attach/auto/full_auto_attach/v1.py:74-133 | from any attempt on, the update is requested at most once, and never after the latch is set |
| FullAutoAttach.LoopSleeps | uaclient/api/u/pro/attach/auto/full_auto_attach/v1.py:130-133 | from attempt i on, the loop sleeps at most limit − i times |
| FullAutoAttach.LoopFailure | uaclient/api/u/pro/attach/auto/full_auto_attach/v1.py:130-138 | the failure error comes only after every remaining attempt has ended in a sleep |
| FullAutoAttach.LoopSuccess | uaclient/api/u/pro/attach/auto/full_auto_attach/v1.py:130-131 | with services requested, a success from attempt i on means every candidate is known and the trace ends with a successful enable of each of them, in order |
| FullAutoAttach.FirstPass | uaclient/api/u/pro/attach/auto/full_auto_attach/v1.py:75-131 | with one attempt allowed, a finished attach decides the call, and otherwise a first attempt that raises or succeeds decides it |
| FullAutoAttach.AttachRequestedAtMostOnce | uaclient/api/u/pro/attach/auto/full_auto_attach/v1.py:74-88 | one call requests the contract update at most once, however many attempts it makes |
| FullAutoAttach.SleepsBoundedByLimit | uaclient/api/u/pro/attach/auto/full_auto_attach/v1.py:130-138 | a call sleeps at most `limit` times; it fails with `full-auto-attach-error` only after sleeping exactly that often |
| FullAutoAttach.NegativeRetriesFailWithoutAttaching | uaclient/api/u/pro/attach/auto/full_auto_attach/v1.py:70-75 | a negative `retries` fails at once with `full-auto-attach-error` and no effect |
| FullAutoAttach.NothingRequestedEnablesNothing | uaclient/api/u/pro/attach/auto/full_auto_attach/v1.py:81-87 | with no service requested the update is asked to enable the defaults, the call succeeds exactly when the attach does, and nothing is enabled by the endpoint |
| FullAutoAttach.BetaInEnableStopsBeforeEnabling | uaclient/api/u/pro/attach/auto/full_auto_attach/v1.py:91-96 | a beta name in `enable` fails the call before any enable; after a good attach the error is BetaServiceError `beta-service-found` |
| FullAutoAttach.FirstAttempt | uaclient/api/u/pro/attach/auto/full_auto_attach/v1.py:76-131 | after a good attach with services requested, the attach goes on to enabling without enabling or sleeping, and a first attempt that raises or succeeds decides the call |
| FullAutoAttach.IterateUnknown | uaclient/api/u/pro/attach/auto/full_auto_attach/v1.py:105-129 | with unknown names and no stopping failure, an attempt enables every known name, in order, then raises EntitlementNotFoundError with the unknown ones |
| FullAutoAttach.IterateAllEnabled | uaclient/api/u/pro/attach/auto/full_auto_attach/v1.py:90-131 | with every name known and every enable succeeding, an attempt enables every candidate in order and succeeds |
| FullAutoAttach.UnknownNamesReportedAfterEnablingKnown | uaclient/api/u/pro/attach/auto/full_auto_attach/v1.py:105-129 | the call raises EntitlementNotFoundError naming the unknown names only after enabling every known one |
| FullAutoAttach.AllEnabledFirstAttempt | uaclient/api/u/pro/attach/auto/full_auto_attach/v1.py:90-131 | when every service is known and enables, the first attempt succeeds with each service enabled once, in order, and no sleep |
| FullAutoAttach.SuccessEnabledEveryService | uaclient/api/u/pro/attach/auto/full_auto_attach/v1.py:130-131 | a success after the attach means every candidate is known and the trace ends with a successful enable of each of them, in order |
| FullAutoAttach.PassSuccessCount | uaclient/api/u/pro/attach/auto/full_auto_attach/v1.py:103-121 | a pass that finishes has counted exactly the successful enables it appended to the trace |
| FullAutoAttach.PassOkEvents | uaclient/api/u/pro/attach/auto/full_auto_attach/v1.py:105-121 | a pass that counts every remaining name has appended exactly one successful enable per name, in order |
| FullAutoAttach.PassStopsAt | uaclient/api/u/pro/attach/auto/full_auto_attach/v1.py:105-119 | when the j-th enable is the first to fail with a CanEnableFailure reason, the pass raises EntitlementNotEnabledError for that name and reason, having enabled exactly the names up to and including it |
| FullAutoAttach.PassCountsAll | uaclient/api/u/pro/attach/auto/full_auto_attach/v1.py:105-121 | a pass counts every remaining name exactly when every one of their enables succeeds |
| FullAutoAttach.IterateOkEnables | uaclient/api/u/pro/attach/auto/full_auto_attach/v1.py:90-131 | a successful attempt appended exactly a successful enable of each candidate, in order |
| FullAutoAttach.IterateSucceededPass | uaclient/api/u/pro/attach/auto/full_auto_attach/v1.py:102-131 | a successful attempt had no unknown name and its enable loop counted every candidate |
| FullAutoAttach.IterateSucceedsIffAllOk | uaclient/api/u/pro/attach/auto/full_auto_attach/v1.py:90-131 | without a beta name in enable, an attempt succeeds exactly when no candidate is unknown and every candidate's enable succeeds |
| FullAutoAttach.IterateStopsAt | uaclient/api/u/pro/attach/auto/full_auto_attach/v1.py:105-119 | when the j-th found name is the first whose enable fails with a CanEnableFailure reason, the attempt raises EntitlementNotEnabledError for it, having enabled exactly the found names up to it and without sleeping |
| FullAutoAttach.IterateAllOk | uaclient/api/u/pro/attach/auto/full_auto_attach/v1.py:90-131 | with every candidate known and every enable succeeding, the attempt succeeds, its trace ends with a successful enable of each candidate, and it does not sleep |
| FullAutoAttach.AllOkFirstAttempt | uaclient/api/u/pro/attach/auto/full_auto_attach/v1.py:69-131 | after a successful attach, with every candidate known and every enable succeeding, the call returns success on its first attempt without sleeping, its trace ending with a successful enable of each candidate |
| FullAutoAttach.StoppingFailureEndsCall | uaclient/api/u/pro/attach/auto/full_auto_attach/v1.py:69-119 | after a successful attach, the first enable that fails with a CanEnableFailure reason ends the whole call with EntitlementNotEnabledError for that service, with no retry and no sleep, having enabled exactly the found names up to it |
| FullAutoAttach.AttachOnce | uaclient/api/u/pro/attach/auto/full_auto_attach/v1.py:76-88 | the attach block's outcome and new state are those of the attach-phase specification |
| FullAutoAttach.EnableFound | uaclient/api/u/pro/attach/auto/full_auto_attach/v1.py:103-121 | the enable loop, with its counter, agrees with the enable-pass specification |
| FullAutoAttach.TryEnable | uaclient/api/u/pro/attach/auto/full_auto_attach/v1.py:90-131 | the beta check, candidate list, enable loop and exits agree with the attempt specification |
| FullAutoAttach.TryOnce | uaclient/api/u/pro/attach/auto/full_auto_attach/v1.py:76-131 | one loop body up to the retry decision agrees with the latched-pass specification |
| FullAutoAttach.FullAutoAttach | uaclient/api/u/pro/attach/auto/full_auto_attach/v1.py:69-138 | the `while` loop with its counter and latch returns, and leaves the state, as the endpoint specification says |
| System.BeforeFinalNewline | uaclient/system.py:27 | a `$` anchor sees the text, or the text without one final newline |
| System.BeforeFinalNewlineOf | uaclient/system.py:27 | a text and the same text plus one newline look the same to `$` |
| System.MatchVersionSound | uaclient/system.py:22 | a version match is three digit groups with `.`/`-` separators, followed by a non-digit or the end |
| System.MatchVersionOf | uaclient/system.py:22 | every well-formed version followed by a non-digit is matched, with its groups |
| System.MatchUnameTailSound | uaclient/system.py:23-27 | a tail match is a digit ABI and a flavour of `[A-Za-z0-9_-]` |
| System.MatchUnameTailOf | uaclient/system.py:23-27 | every digit ABI and flavour is matched |
| System.MatchUnameSound | uaclient/system.py:20-28 | a uname match is a well-formed release rendering the input |
| System.MatchUnameOf | uaclient/system.py:20-28 | every well-formed release is matched, with or without one final newline |
| System.MatchUnameExactly | uaclient/system.py:20-28 | the uname pattern accepts exactly the rendered releases, with or without one final newline |
| System.MatchHweFlavorSound | uaclient/system.py:36-39 | the optional `~` hwe group is digits and dots, followed by a flavour |
| System.MatchHweFlavorOf | uaclient/system.py:36-39 | every hwe group (or none) and flavour is matched |
| System.MatchSignatureTailSound | uaclient/system.py:32-39 | the signature tail is a digit ABI, a separator, a digit subrev, the optional hwe group and a flavour |
| System.MatchSignatureTailOf | uaclient/system.py:32-39 | every well-formed signature tail is matched, with its groups |
| System.MatchSignatureSound | uaclient/system.py:29-40 | a signature match is a well-formed signature version rendering the input |
| System.MatchSignatureOf | uaclient/system.py:29-40 | every well-formed signature version is matched, with or without one final newline |
| System.MatchSignatureExactly | uaclient/system.py:29-40 | the signature pattern accepts exactly the rendered signature versions, with or without one final newline |
| System.SplitVersionOf | uaclient/system.py:41-49 | the split pattern splits every well-formed version into its major, minor and patch |
| System.KernelErrorsAreParseErrors | uaclient/system.py:86-117 | every failure of `get_kernel_info` is the parse failure; the version split never fails after a match |
| System.KernelVersionAlwaysSplits | uaclient/system.py:113-121 | on success the version is the three digit groups major, minor and patch with separators |
| System.MatchedVersionSplits | uaclient/system.py:113-117 | the version group of either kernel pattern is split by the split pattern |
| System.KernelFromUname | uaclient/system.py:101-111 | without signature content the kernel comes from uname, with empty subrev and hwerev, and a non-matching uname is the parse error naming it |
| System.KernelFromSignature | uaclient/system.py:86-100 | with signature content the second field decides whatever uname says; hwerev is empty without the `~` group; a non-match is the parse error naming the field |
| System.SignatureWithoutSecondField | uaclient/system.py:75-95 | content with no second field fails to parse instead of falling back to uname |
| System.KernelInfoOfSignature | uaclient/system.py:70-135 | a signature file whose second field is a well-formed signature yields exactly its groups |
| System.KernelInfoOfUname | uaclient/system.py:70-135 | a well-formed uname with no signature file yields exactly its groups |
| System.OsReleaseFromFails | uaclient/system.py:343-344 | parsing fails, with the unpacking ValueError, exactly when some line has no `=` |
| System.OsReleaseFromKeys | uaclient/system.py:343-346 | the keys are the earlier ones plus those some line gives a non-empty value |
| System.OsReleaseFromKeeps | uaclient/system.py:343-346 | a key no later line defines keeps its value |
| System.OsReleaseFromLastWins | uaclient/system.py:343-346 | a key's value is the stripped, unquoted value of the last line defining it |
| System.OsReleaseMeaning | uaclient/system.py:339-347 | `parse_os_release` fails exactly on a line without `=`; otherwise it maps exactly the keys given non-empty values, each to the cleaned value of its last definition |
| System.ParseOsRelease | uaclient/system.py:339-347 | the method reads `/etc/os-release` when no file is named, fails with the load error when the file is missing, and otherwise returns the dictionary that OsReleaseMeaning characterises |
| System.NormalizeLts | uaclient/system.py:170 | the substitution never lengthens the version |
| System.NormalizeLtsNoMatch | uaclient/system.py:170 | a version with no `.<digit> LTS` is left unchanged |
| System.NormalizeLtsPrefix | uaclient/system.py:170 | text in which no point release starts is copied unchanged |
| System.NormalizeLtsStripsPointRelease | uaclient/system.py:169-170 | `<release>.<d> LTS<tail>` becomes `<release> LTS<tail>` |
| System.MatchParenSeriesSound | uaclient/system.py:17 | `\((\w+)` takes the whole word run as the series |
| System.MatchParenSeriesOf | uaclient/system.py:17 | every word series after `(` is matched, with the rest left |
| System.MatchLtsSound | uaclient/system.py:17 | the optional `LTS ` group is taken only when `LTS (` follows |
| System.MatchLtsOf | uaclient/system.py:17 | with or without `LTS `, a following `(` is reached |
| System.MatchMinorSeriesSound | uaclient/system.py:17 | after the release's dot come digits, a space, the optional LTS and the parenthesised series |
| System.MatchOsVersionSound | uaclient/system.py:17 | a version match consumes a well-formed release and series followed by a non-word character |
| System.MatchOsVersionOf | uaclient/system.py:17 | every well-formed release and series is matched, whatever non-word text follows |
| System.PlatformDict | uaclient/system.py:163-187 | the dictionary has exactly the keys distribution, type, version, release, series, kernel and arch, with `type` Linux and the series lowered |
| System.PlatformInfoErrors | uaclient/system.py:168-187 | failures in the order met: a missing VERSION, a version the pattern rejects (RuntimeError naming both texts), then the kernel's failure |
| System.PlatformInfoFields | uaclient/system.py:162-190 | on success: the fixed keys, `type` Linux, distribution NAME or `UNKNOWN`, the normalised version, the matched release and the lower-cased series |
| System.PlatformInfoPointRelease | uaclient/system.py:168-185 | `20.04.1 LTS (Focal Fossa)`-style versions give release `20.04`, series `focal` and the point release stripped |
| System.GetPlatformInfo | uaclient/system.py:155-190 | the method combines the parsed os-release, the kernel info and the architecture as the specification does |
| System.ShouldReboot | uaclient/system.py:267-318 | the loops over the package list and the patterns agree with the reboot rule: no marker gives false; no filters gives true; no package list gives true; otherwise true exactly when a given package is listed or some pattern finds a listed line |
| System.NoMarkerNoReboot | uaclient/system.py:291-292 | without the marker file no filter can ask for a reboot |
| System.FiltersActAsOr | uaclient/system.py:308-316 | with the package list present, giving both filters asks for a reboot exactly when either one alone would |
| System.MorePackagesMoreReboots | uaclient/system.py:308-310 | asking about more packages can only turn the answer to true |
| System.TokenMachineId | uaclient/system.py:248-253 | the token's `machineTokenInfo.machineId` is used exactly when present and non-empty |
| System.StoredId | uaclient/system.py:259 | a stored id never ends in a newline |
| System.StoredMachineId | uaclient/system.py:257-261 | a stored id is non-empty and comes from an existing path; none exactly when every existing path is empty after stripping newlines |
| System.StoredMachineIdFirst | uaclient/system.py:257-261 | the first existing path with a non-empty id supplies it, whatever later paths hold |
| System.GetMachineId | uaclient/system.py:243-264 | the token's id first, else the first stored id, else the new id, which alone is written to the fallback file |
| System.StoredAfterWrite | uaclient/system.py:257-263 | after writing a non-empty id where none was stored, that id is the one found |
| System.MachineIdStable | uaclient/system.py:243-264 | once generated and written, the next call returns the same id whatever new one it is offered |
| Apt.UnpackPair | uaclient/apt.py:29 | unpacking succeeds exactly for two pieces, and otherwise raises ValueError |
| Apt.ValidCredentials | uaclient/apt.py:20-44 | the probe raises exactly when the URL does not unpack into protocol and path |
| Apt.ValidCredentialsMeaning | uaclient/apt.py:29-44 | a malformed URL raises with no effect; without apt-helper the credentials are valid with no effect; otherwise the download decides, the probe file is gone and one command was run |
| Apt.ValidAptCredentials | uaclient/apt.py:20-44 | the method's result and new files agree with the probe specification |
| Apt.RepoListLines | uaclient/apt.py:59-62 | the list file is exactly the `deb` line and the commented `deb-src` line, each ended by a newline |
| Apt.PinLines | uaclient/apt.py:112-116 | the pin file is exactly the Package, Pin and Pin-Priority lines, each ended by a newline |
| Apt.KeepLines | uaclient/apt.py:101-102 | the kept lines are exactly the lines not containing the prefix |
| Apt.KeepLinesConcat | uaclient/apt.py:101-102 | filtering keeps the order of the lines |
| Apt.RemoveAuthLinesMeaning | uaclient/apt.py:99-106 | the new text splits into exactly the kept lines, in order, and is empty when none is kept |
| Apt.AuthLineMarked | uaclient/apt.py:72-75 | the appended credential line contains the prefix removal looks for |
| Apt.RemoveAfterAppend | uaclient/apt.py:72-102 | for earlier text ending in a newline, removing a repository's lines after appending its credential line gives what removal gave before |
| Apt.AddAuthAptRepo | uaclient/apt.py:47-84 | the method's result and new files and commands agree with the add specification, including the keyring copy that fails on a missing keyring |
| Apt.RejectedCredentialsWriteNothing | uaclient/apt.py:55-57 | rejected credentials raise InvalidAPTCredentialsError naming the URL before any file is written |
| Apt.MalformedCredentialsAfterListWrite | uaclient/apt.py:63-66 | credentials without exactly one `:` raise only after the list file has been written |
| Apt.AddAuthRepoSucceeds | uaclient/apt.py:59-84 | with accepted credentials the list file is written and exactly one credential line is appended to the earlier `auth.conf` (empty if missing) with mode 0600, every other file staying as it was; then a missing keyring raises FileNotFoundError and a keyring already in `/etc/apt/trusted.gpg.d` raises SameFileError, both after `auth.conf` is written; otherwise the keyring is copied, content and mode, to `/etc/apt/trusted.gpg.d/<basename>`; without a keyring, a fingerprint is imported with `apt-key` |
| Apt.RemoveAuthAptRepo | uaclient/apt.py:87-106 | the method's result and new files and commands agree with the remove specification |
| Apt.RemoveKeepsKeyringCopy | uaclient/apt.py:77-93 | removal deletes the keyring path it is given, so a copy that the add made in `/etc/apt/trusted.gpg.d` stays as it was |
| Apt.RemoveAuthRepoMeaning | uaclient/apt.py:87-106 | removal drops the list file and the keyring file (or else the key), keeps only other repositories' `auth.conf` lines with mode 0600, and deletes `auth.conf` when nothing is left |
| Apt.AddThenRemoveRestoresAuth | uaclient/apt.py:72-106 | when the earlier `auth.conf` ends in a newline and holds no line of this repository, removing after adding passes, drops the list file and restores that text with mode 0600, or deletes the file when it was empty or missing |
| Apt.AddRepoPinning | uaclient/apt.py:109-117 | the preference file holds exactly the pin content, with the literal `$` before the priority, and nothing else changes |

## Left out

- Subprocesses are not modelled, because they are foreign and depend on the environment:
  - `lscpu`, `dpkg` and `ubuntu-distro-info` (`get_lscpu_arch`, `get_dpkg_arch`, `is_lts`, `is_active_esm`);
  - `ischroot` and `systemd-detect-virt` (`is_container`);
  - `which`.
  
  The `apt-helper` download and `apt-key` are recorded as commands; whether the download succeeds is a parameter.
- `Apt.AddAuthAptRepo`: `apt-key` always succeeds in the model. A failing `apt-key` would make `util.subp` raise ProcessExecutionError.
- `Apt.AddAuthAptRepo`: directories are not tracked. The copy assumes `/etc/apt/trusted.gpg.d` exists as a directory. Paths are compared as strings without normalisation, so SameFileError is raised only when the keyring's path is literally the copy's path.
- `uaclient/util.py` is not part of this model: `load_file`, `write_file`, `del_file` and `subp` are the `Files.FileSystem` operations.
- The contract server, `identity.get_instance_id`, `identity.cloud_instance_factory`, `cli._detach`, `cli.get_valid_entitlement_names`, `cli._create_enable_entitlements_not_found_message` and the entitlement classes' own `enable()` are not modelled. They are scripted answers in `Actions.Env`.
- Each entitlement's valid names, beta flag and dependency lists are registry data, not the classes themselves.
- Status rendering and `update_apt_and_motd_messages` are recorded as trace events only.
- `os.uname()`, `uuid.uuid4()` and `platform.dist()` are parameters.
- `time.sleep` is a trace event.
- `lru_cache` memoisation is left out: every function is modelled as uncached.
- Logging and `print` are left out.
- `FullAutoAttach.Dedup`: `list(set(services))` has no defined order. The model keeps each name at its first occurrence. So the order in which the found names are enabled is this choice, not the interpreter's set order.
- `Found` and `NotFound` stand in for `cli.get_valid_entitlement_names`, which is not part of this model. They split the candidates by whether the entitlement lookup resolves them. The message text of EntitlementNotFoundError is replaced by the list of unknown names.
- The exception class hierarchy is not modelled: whether an error from the contract update is a `UrlError`, a `UserFacingError` or another exception is scripted.
- Entitlement state that persists between calls is modelled only through a count: the scripted enable answers the n-th enable call for a name.
- Python's `re` is modelled by hand-written matchers for the kernel, uname, version-split and os-release patterns. Their limits:
  - `\d` and `\w` are ASCII only;
  - `$` also accepts one final newline, as Python's does;
  - `re.sub` handles only the single pattern `\.\d LTS`;
  - the user-supplied patterns of `should_reboot` are a `search` parameter.
- The architecture in the platform dictionary is a parameter.
- `add_auth_apt_repo` and `remove_auth_apt_repo` use `None` for "no keyring file" and "no fingerprint". The model uses the empty string for both, which Python treats as falsy in the same way.
- `FullAutoAttach.FullAutoAttach`: the `while` body is split into two methods:
  - `TryOnce`: the attach unless latched, then one enabling attempt;
  - the retry bookkeeping.
  
  The order of effects is unchanged.
- The option deserialisation of `FullAutoAttachOptions` and the endpoint registration are not modelled.
- `Actions.EnableByName`, `Actions.DetachStep` and `Actions.AttachWithTokenStep`: the scripted collaborators (an entitlement's `enable()`, `cli._detach` and `identity.get_instance_id`) answer with a value and never raise. In the code an exception from any of them would propagate out of the endpoint unchanged. The model does not cover that exit.
- `Entitlements.EntitlementsEnableOrder` requires the required-services graph of the registry to be acyclic. The code marks an entitlement visited only after all its edge targets are visited, and the guard inside that loop tests the parent's name rather than the target's (uaclient/entitlements/__init__.py:111-130). So on a cycle it recurses until Python raises RecursionError; the precondition excludes that exit.
- `Entitlements.EntitlementsDisableOrder` requires the dependent-services graph of the registry to be acyclic, for the same reason.
- Concurrency is not modelled: nothing else touches the files or the configuration during a call.
