# entra-emulator: verified models

This project models the parts of the Entra ID emulator where correctness hangs on
more than one function: protocols whose steps interleave, a path rewriter placed
in front of a router, transactions over related tables, and a few data structures
updated in place. Every claim is a Dafny contract or lemma over all inputs, all
runs or all interleavings. Verify it with `dafny verify dfyconfig.toml`.

## How it is laid out

| area | modules |
|---|---|
| Case-insensitive Graph routing, and what reads the folded path | `Strings`, `Escaping`, `RouteOrder`, `CaseFold`, `QueryFold`, `GraphGate` |
| Outbound SCIM provisioning | `Provisioning`, `SyncOutcomes`, `Convergence`, `Watermark` |
| Device authorization grant (RFC 8628) | `DeviceCode`, `UserCode` |
| Authorize requests with signed form state | `Authorize`, `AuthorizeRuns`, `AuthorizeReplies`, `AuthorizePrompt` |
| Scope resolution | `Scopes`, `ScopeForms` |
| Refresh tokens and code replay (RFC 6749) | `RefreshFamily`, `RefreshRuns`, `RefreshLaws`, `RefreshOutcomes` |
| Directory export and import | `Relational`, `Transfer`, `TransferKeys`, `TransferRoundTrip` |
| OData collections and paging | `QueryText`, `Paging`, `PagingQuery` |
| SCIM projection and group membership (RFC 7644) | `Projection`, `ProjectionLaws`, `GroupMembers` |
| Clock, audit rings, hosts file | `Clock`, `AuditRings`, `HostsBlock` |

Objects whose methods change their fields are classes (`CaseFolder`, `Url`,
`Provisioner`, `ScimTarget`, `DeviceStore`, `Identity`, `RefreshStore`,
`DirectoryStore`, `Directory`, `MapObj`, `ControlledClock`, `Ring`). Each method is
tied to a function of the old state, and the laws are proved about those functions. Among
the laws of each operation is one that tells its outcome from the request, the stored rows
and the history alone, with every constant and error name written out, so that it does not
lean on the function it is about.
Concurrency is a state machine over the store's atomic statements: a handler is cut
into the step that reads and the step that writes, and the laws hold for every
sequence of steps.

## What was found

Where the code does less than its documentation or a reader would expect, the model
follows the code. Each entry names a lemma with an input or a run on which the expected
property fails, and the lemma that says exactly when it holds.

- A version segment sent percent-encoded is never folded, because the guard reads the raw
  path, so `/V1%2E0/...` is not found (`CaseFold.EncodedVersionIsNotFolded`). Folding and
  exact dispatch answer as case-insensitive dispatch would exactly when the version is
  written out or the path is already spelled as registered
  (`CaseFold.FoldedPathDispatchIff`).
- A `response_mode` the server does not advertise falls into the query branch and puts
  an ID token on the query string (`AuthorizeRuns.UnadvertisedModeReachesQuery`); this
  happens for no other mode (`AuthorizeRuns.IdTokenOnQueryIffUnadvertised`).
- `max_age` is not rechecked when a consent form is posted, and a consent post accepts
  a state signed for a sign-in page even with consent off
  (`AuthorizeRuns.ConsentPostExceedsMaxAge`). With consent off, a failed session insert
  reports authentication time zero (`AuthorizeRuns.FailedInsertExceedsMaxAge`).
  `AuthorizeRuns.RunAnswersMaxAgeIff` gives the condition for one run and
  `AuthorizeRuns.MaxAgeHonouredIff` the policies under which every run meets it.
- `prompt=login` is not carried in the signed state either: a consent post with the state
  of the sign-in page that `prompt` forced issues from the session that was live all along
  (`AuthorizePrompt.ConsentPostSkipsPrompt`). A run keeps to the prompt exactly when no
  accepted consent form brings back a state before somebody has signed in on it, or a
  request without such a prompt has come to the same state
  (`AuthorizePrompt.PromptHonouredIff`).
- Provisioned groups are found by display name alone, which the directory does not make
  unique. Two groups of one name collapse onto one group on the target, with the members
  of the last (`Convergence.NamesakesCollapse`). All groups are reflected exactly when
  groups of one name have the members the target knows in common
  (`Convergence.AllReflectedIff`).
- The watermark is not kept per target. An incremental cycle towards a new target leaves
  it without the users an earlier cycle has seen (`Convergence.NewTargetStaysEmpty`); a
  user is reflected there exactly when its row is stamped at or after the watermark or the
  new target agreed already (`Convergence.ProvisionAnother`).
- The route coverage script credits the route ServeMux serves exactly when that route
  names the request's own method (`RouteOrder.ResolveMirrorsServeMux`); a HEAD request on
  a GET route credits nothing (`RouteOrder.HeadIsNotCredited`).
- The provisioning watermark is safe exactly for writes that are not stamped before a
  cycle that has already made its list (`Watermark.NoSafeChangeIsLost`,
  `Watermark.ExposedChangeCanBeLost`). Writes that stamp the current second and commit
  at once are always safe. An import, which leaves rows stamped with their old creation
  time, is not.
- Scope order matters when an application has an empty id
  (`Scopes.NamelessAppMakesOrderMatter`), and only then (`Scopes.OrderIrrelevantIff`).
- A directory survives export, import, export unchanged exactly when import's defaults
  touch none of its exported rows (`TransferRoundTrip.RoundTrip`); one user created at
  time zero is enough to fail it (`TransferRoundTrip.UnsettledDirectory`). An export
  lists one million users, groups and applications, and is importable exactly when no
  listed member was cut off (`TransferRoundTrip.ExportImports`); one user more can make
  it unimportable (`TransferRoundTrip.CrowdedExportDoesNotImport`).
- Seeing an authorization code again revokes its refresh tokens, but not one that an
  exchange of the same code is about to store (`RefreshOutcomes.ReplayBeforeMint`,
  `RefreshLaws.ReplayRevokesForGoodIff`). A presentation that read the code before the
  winning exchange loses the race and revokes nothing; one that read it afterwards
  revokes (`RefreshOutcomes.PresentationEnds`). Losing the race for a refresh token
  revokes the whole chain.
- A client that wins a refresh whose scopes lack `offline_access` spends its token and is
  not handed the successor, which is the only live token of the chain
  (`RefreshOutcomes.NarrowingIsReached`, `RefreshLaws.SuccessorIsHandedIff`).
- A page link repeats the decoded path, so a wildcard that held an escaped `?`, `#` or
  `%` sends the client elsewhere (`Paging.LinkLeadsElsewhere`, `Paging.LinkLeadsBackIff`).
- SCIM PATCH `replace` on `members` adds (`GroupMembers.ReplaceKeepsOldMember`), which
  equals a replacement exactly when no earlier member is missing from the list
  (`GroupMembers.PatchReplacesIff`). A `remove` that lists nobody clears the membership
  (`GroupMembers.RemovingNobodyClears`); it takes out the listed members exactly when it
  lists somebody or nobody is there (`GroupMembers.RemovesListedIff`).
- An attribute can be selected or excluded by projection exactly when its name holds no
  dot (`ProjectionLaws.ReachableIffUndotted`), which rules out an extension schema's URN
  (`ProjectionLaws.ExtensionIsOutOfReach`). No resource the service builds today has
  such an attribute.
- An end marker above the begin marker makes the hosts editor duplicate the text in
  between (`HostsBlock.EndAboveBegin`, `HostsBlock.CutDuplicatesIff`).

## Assumptions

- Strings are octets, and case folding is ASCII.
- Registered routes satisfy ServeMux's registration rule, their literals contain no `%`
  or `/`, are non-empty, and are equal when they are equal ignoring case.
- Request paths hold no `.`, `..` or empty segment in the middle: ServeMux redirects those
  to the cleaned path before it matches, and that redirect is not modelled.
- The HMAC over form state is an unforgeable tag: a form is accepted only if the server
  signed it. Random identifiers are fresh.
- Each SQL statement or transaction is one atomic step. Rows with equal sort keys keep
  insertion order.
- Numbers are unbounded except in `Paging`, where `strconv.Atoi` rejects what does not
  fit in 64 bits.
- Maps that the code looks up ignoring case hold no two keys equal ignoring case.

## Model

| member | source | states |
|---|---|---|
| RouteOrder.MeetIffAgree | internal/graph/casefold.go:66-76 | Two patterns share some request path, a semantic claim over all paths, exactly when no position holds two different literals. |
| RouteOrder.WithinIffRefines | internal/graph/casefold.go:66-76 | Every path of one pattern is a path of the other exactly when it refines it position by position. |
| RouteOrder.CandidatesChain | internal/graph/casefold.go:182-205 | Under ServeMux's registration rule the patterns one request reaches are totally ordered by inclusion. |
| RouteOrder.SelectorsAgree | internal/graph/casefold.go:66-76 | In such a chain leftmost literal, most literals and least inclusive select the same single pattern. |
| RouteOrder.LeftmostIsLeastPath | internal/graph/casefold.go:182-205 | Across methods too, the leftmost-literal choice is included in every other candidate's path set. |
| RouteOrder.ChainHasLeast | internal/graph/casefold.go:66-76 | A non-empty chain has a least pattern, so a request some pattern reaches always has a winner. |
| RouteOrder.Resolve | scripts/check_graph_route_coverage.py:83-112 | The script's loop returns a matching route of that very method with the most literals, or nothing exactly when none matches. |
| RouteOrder.ResolveMirrorsServeMux | scripts/check_graph_route_coverage.py:83-112 | For any request and any registration order, the script credits the route ServeMux serves exactly when that route carries the request's method itself; the folder selects that route's path. |
| RouteOrder.HeadIsNotCredited | scripts/check_graph_route_coverage.py:97-99 | A HEAD request that a GET route serves and the script credits to nothing. |
| CaseFold.CaseFolder.Match | internal/graph/casefold.go:182-205 | The updating loop returns the leftmost-literal pattern among those that match ignoring case. |
| CaseFold.CaseFolder.Learn | internal/graph/casefold.go:98-126 | Registration appends exactly the pattern the text means, ignores other prefixes, and panics exactly on shapes folding does not support. |
| CaseFold.LearnRoundTrip | internal/graph/casefold.go:98-126 | Every registrable pattern, written out and learned, is read back as itself. |
| CaseFold.CaseFolder.Canonical | internal/graph/casefold.go:160-168 | The rebuilt path is the prefix and the segments with each literal in its registered spelling. |
| CaseFold.CaseFolder.Fold | internal/graph/casefold.go:139-178 | The request's escaped path and raw query become their folded forms, and nothing changes on an unversioned path. |
| CaseFold.VariantsFoldAlike | internal/graph/casefold.go:139-178 | Paths that differ only in case at literal positions choose the same pattern and are rewritten to the same path, which folding leaves alone. |
| CaseFold.FoldRefinesFoldedDispatch | internal/graph/casefold.go:139-205 | For every method and path, exact dispatch of the rewritten path gives the verdict (handler, wrong method or not found) of case-insensitive dispatch of the original. |
| CaseFold.OneAnswer | internal/graph/casefold.go:182-205 | Case-insensitive dispatch has exactly one verdict for every request. |
| CaseFold.FoldPathSegments | internal/graph/casefold.go:139-178 | On a validly escaped path the segment count is kept and every wildcard segment survives byte for byte. |
| CaseFold.FoldPathTwice | internal/graph/casefold.go:139-178 | Folding is idempotent on every decodable path. |
| CaseFold.FoldedPathDispatch | internal/graph/casefold.go:139-178 | The dispatch theorem on whole escaped request paths under the mount prefix. |
| CaseFold.SpellingsFoldToOnePath | internal/graph/casefold.go:139-178 | All spellings of a request become one path string. |
| CaseFold.UnfoldedDispatchIff | internal/graph/casefold.go:139-205 | A routable path left alone gets the case-insensitive verdict for its method exactly when the chosen pattern, or with none for the method some pattern if any, already matches it exactly. |
| CaseFold.FoldedPathDispatchIff | internal/graph/casefold.go:139-178 | On every decodable path under the mount, folding then exact dispatch agrees with case-insensitive dispatch exactly when the version is written out, the path cannot be routed, or it is spelled as registered. |
| CaseFold.EncodedVersionIsNotFolded | internal/graph/casefold.go:139-147 | The failing side: every pattern has a percent-encoded-version spelling a case-insensitive router would serve and this one does not find. |
| CaseFold.VersionedIff | internal/graph/casefold.go:139-147 | A path is looked at exactly when `v1.0`, in any case and unescaped, is its first segment under the mount. |
| CaseFold.RewrittenDecodes | internal/graph/casefold.go:160-178 | A path is replaced by one that decodes, or left as it is. |
| CaseFold.ParseMeaning | internal/graph/casefold.go:98-126 | A pattern outside the mount is ignored, and one under it is refused exactly when a segment is a wildcard with no closing brace, an ellipsis or a dollar sign. |
| QueryFold.EscapeNameDecodes | internal/graph/casefold.go:210-237 | The re-encoded parameter name decodes to itself and cannot split a query. |
| QueryFold.FoldPartMeaning | internal/graph/casefold.go:210-237 | A `$` name decodes to its lower case, any other part is unchanged, values survive byte for byte, and folding again changes nothing. |
| QueryFold.FoldedMeaning | internal/graph/casefold.go:210-237 | Parts keep their number and order, folding is idempotent, and a query with no such name is returned as it was. |
| QueryFold.FoldQuery | internal/graph/casefold.go:210-237 | The loop over the parts computes that folded query, also when it reports no change. |
| GraphGate.GateAsksByRegisteredName | internal/graph/permissions.go:71-137 | For any spelling of a request with a literal resource, the gate requires the permissions of the registered resource name. |
| GraphGate.OneVerdictForAllSpellings | internal/graph/permissions.go:165-189 | Two spellings that choose the same pattern get one verdict for any token. |
| GraphGate.UnfoldedSpellingSkipsTheGate | internal/graph/permissions.go:165-189 | Without folding, the gate lets any token through on an upper-case spelling it refuses in lower case. |
| GraphGate.AllowedIff | internal/graph/permissions.go:71-189 | With enforcement on, a token is let through exactly when the operation lists no permission for its kind or the token holds one of the listed ones, scopes for a user's token and roles for an app's. |
| GraphGate.WriterMayRead | internal/graph/permissions.go:71-189 | A token that may change a resource may read it. |
| GraphGate.ReaderMayNotWrite | internal/graph/permissions.go:71-189 | A token with read permissions alone is refused every write on a listed resource but `/me`. |
| Provisioning.Provisioner.Sync | internal/scim/provision.go:116-172 | A cycle leaves target, log, counters and watermark as the specification of a cycle says, and fails without moving the watermark exactly when there is no target or no user list. |
| Provisioning.Provisioner.SyncUsers | internal/scim/provision.go:130-172 | The loop over listed users, with its skip test and counters, equals the specified fold. |
| Provisioning.Provisioner.SyncGroups | internal/scim/provision.go:177-199 | The group loop equals its specification and does nothing when the group list cannot be read. |
| Provisioning.Provisioner.CorrelatedMembers | internal/scim/provision.go:203-215 | Members found on the target are listed in order by their remote ids; an unreadable member list gives none. |
| Provisioning.Provisioner.ReconcileUser | internal/scim/provision.go:153-166 | Create, update, deprovision or pass over, according to the probe and the account state. |
| Provisioning.Provisioner.Request | internal/scim/provision.go:270-299 | Every request is answered by the target once and recorded in the log. |
| Provisioning.Provisioner.AppendLog | internal/scim/provision.go:102-112 | The capped log always holds the newest entries of everything ever logged. |
| Convergence.EveryResourceAccountedFor | internal/scim/provision.go:237-249 | Whatever the target answers, the outcome counters sum to users plus groups when the group list loads. |
| SyncOutcomes.UserStepOutcome | internal/scim/provision.go:153-166 | One probe per user, then a create, update, deprovision or nothing, by who was found with status 200; an accepted write changes the account column by column and is counted by its kind, any other leaves the target alone and counts as one failure. |
| SyncOutcomes.GroupStepOutcome | internal/scim/provision.go:182-198 | One probe per member and one for the group, then a creation with, or a replacement by, the ids found; a write not accepted leaves the target alone and counts as one failure. |
| SyncOutcomes.CycleOutcome | internal/scim/provision.go:116-249 | For any replies over a whole cycle: each counter is the number of requests of its kind answered 200 to 299, `failed` the number of writes answered otherwise, and the target differs only in resources it accepted a write for, with one new resource per accepted creation. |
| SyncOutcomes.RefusedCycleChangesNothing | internal/scim/provision.go:235-243 | A target that refuses every write is left as it was, and every write is counted as failed. |
| Provisioning.Provisioner.SetTarget | internal/scim/provision.go:67-71 | Only the target changes: the watermark and the log stay. |
| Provisioning.OnlyDueRowsAreSent | internal/scim/provision.go:130-172 | Whatever the target answers, an incremental cycle sends what a full cycle over the rows it does not pass over would send. |
| Convergence.CycleConverges | internal/scim/provision.go:130-199 | Against a target that accepts everything, after a cycle of either mode a user is reflected exactly when the cycle looked at its row or it was reflected before; nobody else is touched; of each group name the last is reflected, and no unnamed group is touched. |
| Convergence.FullCycleConverges | internal/scim/provision.go:130-199 | One full cycle makes every user reflected, whatever the target held, touches no user or group the directory does not name, and fails nothing; every group is reflected exactly when groups of one name have the same known members. |
| Convergence.NextCycleChangesNothing | internal/scim/provision.go:130-199 | A further cycle of either mode leaves the target as it is and creates nothing, also when groups share a name. |
| Convergence.AllReflectedIff | internal/scim/provision.go:177-199 | From any target, all groups end reflected exactly when groups of one name have the members the target knows in common. |
| Convergence.NamesakesCollapse | internal/scim/provision.go:177-199 | A full cycle after which two groups are one, with the second one's members. |
| Convergence.ProvisionAnother | internal/admin/scim.go:20-60 | Setting another target and running an incremental cycle reflects there exactly the users stamped at or after the old watermark and those it agreed on already. |
| Convergence.NewTargetStaysEmpty | internal/scim/provision.go:67-71 | Such a cycle that gives an empty target none of the enabled users. |
| Watermark.StepKeepsInv | internal/scim/provision.go:116-172 | Every interleaved step of writers, clock and overlapping cycles keeps the watermark invariant. |
| Watermark.NoSafeChangeIsLost | internal/scim/provision.go:138-149 | In every interleaving, a change not exposed when committed is processed before the watermark passes it. |
| Watermark.NoChangeIsLost | internal/scim/provision.go:138-149 | With writes stamped by the clock as they commit, every current version stamped before the watermark has been processed. |
| Watermark.ExposedChangeCanBeLost | internal/scim/provision.go:138-149 | The converse: any exposed write has a continuation in which it is lost. |
| Watermark.InclusiveLosesChange | internal/scim/provision.go:138-149 | With `<=` in place of `<` an orderly run loses a change. |
| Watermark.LostStaysLost | internal/scim/provision.go:168-170 | A version once passed over stays unprocessed in every later incremental run. |
| Watermark.UninterruptedCycle | internal/scim/provision.go:116-172 | The steps of a cycle run together are the provisioner's cycle: same new watermark, and the listed rows processed are exactly the ones it sends anything for. |
| DeviceCode.DeviceStore.Insert | internal/store/grants.go:263-270 | A row goes in exactly when neither code is taken, and user codes stay unique. |
| DeviceCode.DeviceStore.SetDecision | internal/store/grants.go:292-299 | A decision is recorded exactly on a pending row and otherwise changes nothing. |
| DeviceCode.DeviceStore.ConsumeApproved | internal/store/grants.go:304-313 | One statement returns and deletes the row when it is approved, unexpired and for this app, or does neither. |
| DeviceCode.DeviceStore.LoadPending | internal/identity/devicecode.go:244-262 | The approval page gets a row exactly when one with that user code is pending and unexpired. |
| DeviceCode.DeviceStore.DecideStep | internal/identity/devicecode.go:363-396 | A decision is taken only for the signed session's user on a code still pending, and is recorded for that user. |
| DeviceCode.DeviceStore.Grant | internal/identity/devicecode.go:124-191 | The polling handler's reply and what it leaves in the table. |
| DeviceCode.StepKeepsInv | internal/identity/devicecode.go:124-191 | Every step of pollers, deciders, expiry and deletes keeps the invariant linking rows, decisions and responses. |
| DeviceCode.RunKeepsInv | internal/identity/devicecode.go:124-191 | So does every run. |
| DeviceCode.OneTokenPerApproval | internal/identity/devicecode.go:122-191 | A device code yields at most one response, for its own app and the approving user, read before expiry; a denied code yields none; a code takes one decision. |
| DeviceCode.HistoryGrows | internal/identity/devicecode.go:380-383 | Decisions and responses are never taken back. |
| DeviceCode.UninterruptedPoll | internal/identity/devicecode.go:124-191 | The split steps run together are the handler: same answer, same table. |
| DeviceCode.PollIsTold | internal/identity/devicecode.go:131-191 | In every reachable state: `bad_verification_code` exactly for a code not held or another app's, `expired_token` exactly from the issued expiry on, before it `authorization_pending` exactly while nothing is decided, `authorization_declined` exactly after a denial, and a token exactly for the enabled user who approved; only a pending code outlives the poll. |
| DeviceCode.FirstConsumerWins | internal/identity/devicecode.go:169-174 | Of racing pollers that read the same approved row, only the first to consume gets it. |
| UserCode.Normalize | internal/identity/devicecode.go:35-53 | The loop keeps the alphabet's letters in upper case and returns a code exactly when there are eight. |
| UserCode.NewUserCode | internal/identity/devicecode.go:19-33 | A generated code is well formed and spells the draws. |
| UserCode.TypedCodeIsRecognised | internal/identity/devicecode.go:35-53 | Any text at all is taken for a code exactly when its letters, in upper case, are the code's. |
| UserCode.CaseAndGapsAreIgnored | internal/identity/devicecode.go:35-53 | Neither case nor anything put between the letters, at any place, makes a difference. |
| UserCode.CodesAreDistinguished | internal/identity/devicecode.go:35-53 | Codes read alike are equal. |
| Authorize.ValidationPasses | internal/identity/authorize.go:112-192 | A state that validation lets through meets the redirect, response-type, mode, nonce, openid, PKCE and method checks. |
| AuthorizeReplies.ValidIff | internal/identity/authorize.go:60-192 | A request is let through exactly when its redirect is registered, it carries no request object, its response type is known, nonce, mode, challenge, method and max_age are in order and its scopes resolve with `openid` among them. |
| AuthorizeReplies.ValidatedForm | internal/identity/authorize.go:60-192 | The signed state repeats the request column by column, with the defaults for mode and challenge method filled in. |
| AuthorizeReplies.RefusedRequest | internal/identity/authorize.go:60-192 | An unregistered redirect gets an error page and no redirect; any other refusal is redirected over the request's channel under the error name of what is wrong. |
| AuthorizeReplies.GetDelivers | internal/identity/authorize.go:194-231 | A valid request is answered with a token exactly for the user of a live session young enough for max_age, without a forcing prompt, and with consent off or `prompt=none`. |
| AuthorizeReplies.GetShows | internal/identity/authorize.go:194-231 | Which of the sign-in page, the consent page and `login_required` it is answered with otherwise. |
| AuthorizeReplies.SignInAnswers | internal/identity/authorize.go:294-332 | The reply to a sign-in post: token, consent page, sign-in page again, error page, each exactly when. |
| AuthorizeReplies.ConsentAnswers | internal/identity/authorize.go:238-259 | A consent form issues exactly when it is signed, approved and posted with a live session; a denial is answered `access_denied`. |
| AuthorizeReplies.SignInLasts | internal/identity/identity.go:174-182 | A sign-in is a live session of that user for eight hours and as long as the user is enabled. |
| AuthorizeReplies.StepStores | internal/identity/authorize.go:194-332 | A step stores a session exactly after a sign-in by an enabled user on a signed page, and signs exactly the state of the page it shows. |
| AuthorizeReplies.DeliveriesAreOwed | internal/identity/authorize.go:194-410 | In every run each step delivers exactly when somebody is entitled by it, to that user, with that session's authentication time, over the channel and with the artefacts the state names; a consent form that is not approved delivers nothing. |
| Authorize.Identity.CheckRequest | internal/identity/authorize.go:37-192 | The step-by-step checks compute the specified validation, with its error, redirect or page at each branch. |
| Authorize.Identity.HandleAuthorize | internal/identity/authorize.go:37-231 | The GET's reply, and that it signs no state but the one it shows. |
| Authorize.Identity.HandleSignInSubmit | internal/identity/authorize.go:294-332 | The sign-in's reply, the session it stores, and the state it signs. |
| Authorize.Identity.HandleConsentDecision | internal/identity/authorize.go:238-259 | The consent reply as a function of form, live session and decision. |
| Authorize.Identity.IssueAndDeliver | internal/identity/authorize.go:336-410 | Which artefacts go out over which channel for a response type and mode. |
| AuthorizeRuns.DeliveriesWereValidated | internal/identity/authorize.go:237-369 | In every run, each code or ID token delivered belongs to a state that passed every check when first validated, and to no state of another kind. |
| AuthorizeRuns.IdTokenOnQueryIffUnadvertised | internal/identity/authorize.go:385-410 | An ID token goes out on the query string exactly for a response mode that is not advertised. |
| AuthorizeRuns.UnadvertisedModeReachesQuery | internal/identity/authorize.go:403-408 | A run in which it does. |
| AuthorizeRuns.ConsentPostExceedsMaxAge | internal/identity/authorize.go:249-259 | A run in which a consent post issues from a session older than `max_age`. |
| AuthorizeRuns.FailedInsertExceedsMaxAge | internal/identity/authorize.go:322-332 | A run in which a failed session insert issues with no authentication time. |
| AuthorizeRuns.RunAnswersMaxAgeIff | internal/identity/authorize.go:177-259 | In any run, every token respects `max_age` exactly when each token after a sign-in has its session stored and each after a consent post uses a session young enough; reuse on a GET needs nothing. |
| AuthorizeRuns.MaxAgeHonouredIff | internal/identity/authorize.go:177-231 | All tokens respect `max_age` in all runs exactly when runs contain no consent post, and no failed insert unless consent is on. |
| AuthorizePrompt.ConsentPostSkipsPrompt | internal/identity/authorize.go:238-259 | A run in which every request demands a sign-in, nobody signs in, and a code is issued. |
| AuthorizePrompt.PromptHonouredIff | internal/identity/authorize.go:204-259 | In any run no token ignores a forcing prompt exactly when every accepted consent form carries a state on which somebody has signed in, or to which a request without such a prompt came. |
| Scopes.ResolveDelegatedScopes | internal/identity/scopes.go:65-118 | The loop over scopes computes the specified resolution. |
| Scopes.SettleMeaning | internal/identity/scopes.go:26-33 | The resource settled from any starting value is the one target of all scopes, and settling succeeds exactly when there is one. |
| ScopeForms.BareMeaning | internal/identity/scopes.go:65-118 | A scope without a slash is plain, except Fabric's two. |
| ScopeForms.PrefixedMeaning | internal/identity/scopes.go:65-118 | Under Graph's id a scope is plain and loses the prefix; under Fabric's address it is for Fabric. |
| ScopeForms.AzureMeaning | internal/identity/scopes.go:65-118 | Under an Azure resource a scope is for that resource's audience, named by what follows the last slash. |
| ScopeForms.AppMeaning | internal/identity/scopes.go:65-118 | Under an application's URI, or its id when no URI matches, a scope resolves exactly when the application exposes it enabled. |
| ScopeForms.NobodyMeaning | internal/identity/scopes.go:65-118 | Under a resource nobody registered no scope resolves. |
| ScopeForms.GrantsAreNames | internal/identity/scopes.go:65-118 | Each grant is the name its scope asks for, in order, and the request is echoed unchanged. |
| Scopes.ResolutionMeaning | internal/identity/scopes.go:65-118 | Resolution succeeds exactly when every scope resolves and all targets agree; each grant is a suffix of its request. |
| Scopes.OrderDoesNotMatter | internal/identity/scopes.go:65-118 | Requests with the same scopes in any order, with any repeats, resolve alike to the same audience. |
| Scopes.OrderIrrelevantIff | internal/identity/scopes.go:65-118 | With unique app ids, order and repeats are irrelevant to every request exactly when no application with an empty id exposes a scope without a slash. |
| Scopes.NamelessAppMakesOrderMatter | internal/identity/scopes.go:65-118 | With an application of empty id, one order succeeds and the other fails. |
| Scopes.NarrowGrant | internal/identity/token.go:198-230 | A code exchange succeeds exactly within the stored grant plus the OIDC scopes, and never yields a scope outside them. |
| Scopes.RepeatedScopesPass | internal/identity/token.go:198-230 | A client that repeats scopes it was authorized for is never refused. |
| RefreshFamily.RefreshStore.Unseen | internal/store/grants.go:200-223 | One worklist step yields exactly the parent and children not yet seen. |
| RefreshFamily.RefreshStore.Explore | internal/store/grants.go:187-224 | The worklist ends with a set closed under both links in which every token is related to the one presented. |
| RefreshFamily.ClosedIsFamily | internal/store/grants.go:187-224 | Such a set is exactly the tokens with the same chain origin. |
| RefreshFamily.RefreshStore.RevokeRefreshTokenFamily | internal/store/grants.go:187-232 | Exactly the tokens of the presented token's chain become revoked. |
| RefreshFamily.RefreshStore.RotateRefreshToken | internal/store/grants.go:138-162 | Revoke and insert together, or, when already revoked or not insertable, neither. |
| RefreshFamily.RefreshStore.RevokeRefreshTokensForAuthCode | internal/store/grants.go:174-183 | Exactly the rows of a non-empty code become revoked. |
| RefreshFamily.RefreshStore.RedeemRefreshToken | internal/tokens/service.go:656-721 | The answer and the table after a redemption, in each error case and in success, with the exact condition of success and the scopes it answers. |
| RefreshFamily.RedemptionMeaning | internal/tokens/service.go:656-721 | A redemption succeeds exactly when the stored row is not revoked, of the same app, unexpired and grants every requested scope and the successor can be stored; the answer then carries the row's sign-in and the requested scopes, or the granted ones when none were requested; each failure is named by its cause. |
| RefreshRuns.RotatedLinks | internal/store/grants.go:138-162 | A rotation keeps the table a forest and puts the successor in the chain of the token it replaces. |
| RefreshLaws.StepKeepsInv | internal/tokens/service.go:656-721 | Every interleaved step of redemptions, exchanges and revocations keeps the invariant. |
| RefreshLaws.RunKeepsInv | internal/tokens/service.go:656-721 | So does every run. |
| RefreshLaws.OneWorkingToken | internal/store/grants.go:138-162 | In every run, at most one token of a chain works at any time. |
| RefreshLaws.RedeemedOnce | internal/tokens/service.go:656-721 | No refresh token and no code is ever redeemed twice. |
| RefreshLaws.AnswersMatchFirstGrant | internal/tokens/service.go:691-720 | Every answer, however many rotations on, goes to the app and is for the user, resource, authentication time and method the chain began with, for no scope outside its grant, on a token unexpired when read. |
| RefreshLaws.ReuseEndsTheChain | internal/tokens/service.go:665-671 | Once reuse is seen, no token of the chain works or is redeemed in any continuation. |
| RefreshLaws.ReplayRevokesForGoodIff | internal/tokens/service.go:547-591 | A replayed code's refresh tokens are all revoked, and stay so in every continuation exactly when no exchange of it is still to store one. |
| RefreshOutcomes.PresentationEnds | internal/tokens/service.go:547-591 | A presentation of a code, with anything in between its read and its end, counts as a replay and leaves the code's tokens dead exactly when it read after the exchange, loses the race and changes no token exactly when the exchange fell in between, and is the exchange exactly when there was none. |
| RefreshOutcomes.MintedFromCode | internal/tokens/service.go:557-571 | The token an exchange stores is for the code's app, user, resource, method and time, with the scopes of the exchange. |
| RefreshOutcomes.UninterruptedRedemption | internal/tokens/service.go:656-721 | The read step and the step that follows it, run together, are the service's redemption: same table, and the log gains what was answered. |
| RefreshOutcomes.ReplayBeforeMint | internal/tokens/service.go:557-571 | A run in which a replay revokes and the exchange then stores a live token. |
| RefreshLaws.LosingARefreshTokenRevokesTheChain | internal/tokens/service.go:707-713 | The loser of a race for a refresh token revokes the chain. |
| RefreshLaws.SuccessorIsHandedIff | internal/tokens/service.go:679-720 | A won refresh answers with the requested scopes, or with none requested the granted ones, leaves its successor as the chain's only live token, and hands it to the client exactly when those scopes hold `offline_access`. |
| RefreshOutcomes.NarrowingIsReached | internal/tokens/service.go:715-719 | A run in which a client refreshes for `openid` alone and is handed nothing. |
| Transfer.DirectoryStore.ExportDirectory | internal/store/export.go:34-79 | The nested loops read the specified snapshot of the tables. |
| Transfer.DirectoryStore.ImportDirectory | internal/store/export.go:84-188 | Import succeeds exactly when the snapshot's tables meet every key and reference; then the tables hold its rows column by column and no grant or session is left; otherwise nothing changed. |
| Transfer.LoadedIsStored | internal/store/export.go:101-186 | After an import every table holds the snapshot's rows and no others, column by column; only an empty tenant, a zero creation time, and the empty columns that default to `None`, `web` and `Application` are filled in. |
| TransferKeys.ImportableIff | internal/store/export.go:84-188 | A snapshot imports exactly when its own rows have unique ids and user names, known tenants, memberships between listed groups and users, unique registrations, unique ids among all secrets, scopes and roles, and unique URIs and values within each registration. |
| Transfer.DirectoryStore.InsertUsers | internal/store/export.go:101-119 | The row-by-row checks fail exactly when the users as a whole violate a constraint. |
| Transfer.DirectoryStore.InsertMembers | internal/store/export.go:135-140 | Repeated memberships are ignored, and a membership of an unknown group or user aborts. |
| Transfer.DirectoryStore.InsertApps | internal/store/export.go:141-186 | Applications and their four kinds of rows go in exactly when none of their keys clash. |
| TransferRoundTrip.ExportImports | internal/store/export.go:34-188 | The export of any consistent directory can be imported exactly when the listing limit cut off no listed member. |
| TransferRoundTrip.SmallExportImports | internal/store/export.go:34-188 | With no more than a million users it always can. |
| TransferRoundTrip.ExportLists | internal/store/export.go:34-79 | An export lists users, groups and applications of the tables by id, up to a million of each, exactly the memberships of the listed groups, and every row a listed application owns, secrets by creation time, scopes and roles by value. |
| TransferRoundTrip.RoundTrip | internal/store/export.go:34-188 | Export, import, export returns the same snapshot exactly when no exported row lacks a tenant or a creation time that import would give it, and no redirect type, role member types or group claims are empty. |
| TransferRoundTrip.UnsettledDirectory | internal/store/export.go:106-114 | A consistent directory whose export imports and comes back changed. |
| TransferRoundTrip.CrowdedExportDoesNotImport | internal/store/export.go:37-40 | A consistent directory of one user more than the limit whose export cannot be imported. |
| TransferRoundTrip.ImportedStaysExact | internal/store/export.go:84-188 | A directory that was once imported survives every later round trip exactly, under any tenant and clock. |
| Relational.GatherWithin | internal/store/export.go:60-77 | Reading each parent's own rows takes no row of a table twice. |
| Relational.SelectGather | internal/store/export.go:141-186 | Rows written parent after parent are read back, parent by parent, in order. |
| QueryText.SortedKeys | internal/graph/graph.go:303-312 | Every parameter name is written once. |
| QueryText.EncodedIsRead | internal/graph/graph.go:303-312 | Any parameter map without empty lists, as parsing makes them, encoded as a query string and parsed back, is the same map. |
| Paging.LinkIsFolded | internal/graph/casefold.go:210-237 | The query of a link made from a folded request is left as it is by folding. |
| Paging.AtoiItoa | internal/graph/graph.go:294-306 | A skip token that was written is parsed as the number it stands for. |
| Paging.ApplySelect | internal/graph/odata.go:147-168 | Exactly the named properties remain, ignoring case, under their own names. |
| Paging.ProjectDefault | internal/graph/graph.go:257-268 | Exactly the default user properties and annotations remain unless something was selected. |
| Paging.KeptCount | internal/graph/odata.go:181-189 | Filtering keeps every copy of a matching row and no other row. |
| Paging.WriteCollection | internal/graph/odata.go:179-217 | The loops and slices compute the specified page, count and link. |
| PagingQuery.TopMeaning | internal/graph/graph.go:286-293 | `$top` is the page size: a hundred when missing, malformed or not positive, at most 999. |
| PagingQuery.SkipMeaning | internal/graph/graph.go:294-301 | `$skiptoken` is how many rows come first: none when missing, malformed or not positive. |
| PagingQuery.QueryMeaning | internal/graph/odata.go:25-50 | `$select` names the properties between its commas without surrounding blanks, `$filter` is what the grammar makes of the trimmed text, refused exactly when the grammar refuses it, and `$count` is the word true in any case. |
| PagingQuery.RowMeaning | internal/graph/odata.go:147-217 | A property of a row is shown exactly when the default projection of its resource keeps it and it is selected, ignoring case, or nothing is; its value is the row's. |
| Paging.NextQuery | internal/graph/graph.go:303-312 | Written into a link as text and read back, the query has the new skip token and is otherwise unchanged. |
| Paging.LinkLeadsBackIff | internal/graph/graph.go:303-312 | A link, read as a URL, leads back to the request's path with the link's query exactly when the decoded path holds no `?`, `#`, `%` or control octet. |
| Paging.LinkLeadsElsewhere | internal/graph/graph.go:303-312 | A path whose link does not. |
| Paging.PagesCoverTheRest | internal/graph/odata.go:179-217 | From any skip token, following links terminates and the pages concatenate to the rest of the filtered collection, each row once and in order, projected. |
| Paging.PagesAreUniform | internal/graph/odata.go:206-216 | Every page but the last is full and links on, and all report the same count. |
| Projection.CutPath | internal/scim/projection.go:55-57 | A path is cut at its first dot: the top part has none, and the parts rejoin to the path. |
| Projection.Lookup | internal/scim/projection.go:113-120 | The map-order scan finds the key equal ignoring case, if there is one. |
| Projection.SetSub | internal/scim/projection.go:64-76 | Writing a field into a nested map that may be the resource's own leaves every map of the resource unchanged. |
| Projection.IncludePath | internal/scim/projection.go:54-78 | One requested path, in place, without changing the resource or its nested maps. |
| Projection.ExcludePath | internal/scim/projection.go:86-106 | One excluded path, in place on the copy, replacing nested maps by clones. |
| Projection.Project | internal/scim/projection.go:45-109 | The projection over shared maps says what the specification says, and no map the resource is made of changes. |
| ProjectionLaws.IncludeMeaning | internal/scim/projection.go:47-79 | The path-by-path inclusion equals the order-free description by a set of paths. |
| ProjectionLaws.ExcludeMeaning | internal/scim/projection.go:81-107 | So does the exclusion. |
| ProjectionLaws.SetDecides | internal/scim/projection.go:45-109 | The result depends only on the set of requested paths. |
| ProjectionLaws.AlwaysSurvives | internal/scim/projection.go:20-20 | Attributes returned always survive every projection unchanged. |
| ProjectionLaws.Idempotent | internal/scim/projection.go:45-109 | Projecting a projected resource changes nothing. |
| ProjectionLaws.AskingBothWaysLosesNothing | internal/scim/projection.go:45-109 | Including and excluding the same paths, nested ones too, together rebuild the resource. |
| ProjectionLaws.WholeAnswersArePartition | internal/scim/projection.go:45-109 | For top-level paths the two answers overlap only in attributes returned always, with unchanged values. |
| ProjectionLaws.DottedNameIsOutOfReach | internal/scim/projection.go:55-58 | An attribute with a dot in its name is never included and never excluded. |
| ProjectionLaws.ReachableIffUndotted | internal/scim/projection.go:45-109 | An attribute not always returned can be asked for, and can be left out, by some paths exactly when its name holds no dot; then its own name does both. |
| ProjectionLaws.ExtensionIsOutOfReach | internal/scim/projection.go:45-109 | An attribute under the enterprise extension's URN, which no paths reach. |
| GroupMembers.Directory.Reconcile | internal/scim/resources.go:252-270 | Membership becomes exactly the submitted non-empty ids that name users; other groups keep theirs. |
| GroupMembers.Directory.ReplaceGroup | internal/scim/resources.go:231-275 | PUT sets name, external id and membership to the body's, whatever they were, or changes nothing on an error. |
| GroupMembers.Directory.PatchGroup | internal/scim/resources.go:277-298 | PATCH is the fold of its operations over the group, and touches no other group. |
| GroupMembers.Directory.ApplyGroupOp | internal/scim/resources.go:441-493 | One operation on name, external id and membership, by path and value shape. |
| GroupMembers.OperationMeaning | internal/scim/resources.go:441-464 | A path names one part of the group, in any case: removing the name changes nothing, removing the external id clears it, any other verb sets it to the text or to nothing, and a path that names no part changes nothing. |
| GroupMembers.MembersMeaning | internal/scim/resources.go:465-493 | Without a path, or with `members` in any case and with blanks around it, the users listed are added or the members listed taken out, and a removal that lists nobody takes out all. |
| GroupMembers.PatchReplacesIff | internal/scim/resources.go:486-492 | A submitted list is added to the membership; this equals a replacement exactly when no earlier member is missing from the list. |
| GroupMembers.ReplaceKeepsOldMember | internal/scim/resources.go:486-492 | A `replace` of one member by another that keeps both. |
| GroupMembers.RemovesListedIff | internal/scim/resources.go:478-485 | A removal takes out exactly the listed members if and only if it lists somebody or the group is empty. |
| GroupMembers.RemovingNobodyClears | internal/scim/resources.go:478-485 | A removal of nobody that leaves a group without its member. |
| GroupMembers.ClearThenAddReplaces | internal/scim/resources.go:465-485 | A clearing operation followed by an addition replaces the membership as PUT does. |
| GroupMembers.FilterNamesMember | internal/scim/resources.go:438-438 | The filter path built for an id is matched and yields that id. |
| GroupMembers.MemberIdMeaning | internal/scim/resources.go:438-438 | A path names a member exactly when the filter on some id stands in it, and then such an id. |
| GroupMembers.FilterRemovesOne | internal/scim/resources.go:456-460 | An operation on that path takes out that member and nothing else. |
| GroupMembers.PatchAdmitsUsersOnly | internal/store/directory.go:298-308 | No sequence of operations brings in an id that is not a user. |
| Clock.ControlledClock.Now | internal/clock/clock.go:28-35 | The reading is the frozen instant or the shifted wall clock. |
| Clock.ControlledClock.Advance | internal/clock/clock.go:47-55 | Advancing shifts whichever of the two is in force. |
| Clock.ControlledClock.Freeze | internal/clock/clock.go:58-65 | Freezing pins the current reading, once. |
| Clock.ControlledClock.Unfreeze | internal/clock/clock.go:69-76 | Unfreezing resumes from the frozen reading. |
| Clock.ClockIsStopwatch | internal/clock/clock.go:28-84 | In every run of all operations the clock reads what a simple stopwatch without offsets reads. |
| Clock.TimeAddsUp | internal/clock/clock.go:28-76 | The reading is the initial one plus wall-clock time spent unfrozen plus the sum of advances. |
| Clock.NoJump | internal/clock/clock.go:58-76 | Freezing and unfreezing never move the reading; the other operations move it by what they say. |
| Clock.NeverGoesBack | internal/clock/clock.go:28-76 | With no negative advance and a wall clock that never goes back, the reading never goes back along a run. |
| AuditRings.Ring.Record | internal/audit/audit.go:55-70 | The event joins the history, and the ring keeps holding its newest part. |
| AuditRings.Ring.List | internal/audit/audit.go:73-91 | Every index is in range and the result is the newest-first prefix of what was recorded since the last clear, cut at the limit. |
| AuditRings.Ring.ListDirectory | internal/audit/directory.go:86-109 | The directory log's index formula and clamp give the same listing. |
| AuditRings.ListingAfterRecord | internal/audit/audit.go:55-91 | Recording puts the event in front and pushes out the oldest once the ring is full; a limit only shortens the list. |
| AuditRings.Ring.Clear | internal/audit/audit.go:94-100 | The history is empty and the ring valid. |
| AuditRings.NextIndex | internal/audit/audit.go:65-69 | The write index is the number of events modulo the capacity and returns to zero exactly when the ring first fills. |
| HostsBlock.MergeHostsBlock | cmd/entra-emulator/cli.go:142-153 | The reassignments compute the specified file. |
| HostsBlock.BlockFound | cmd/entra-emulator/cli.go:143-147 | In a file with one added block, first-occurrence search finds exactly that block's markers. |
| HostsBlock.Replaces | cmd/entra-emulator/cli.go:142-153 | For any file whose text outside its block holds no marker, wherever the block stands: adding a block and then another equals adding the other alone, and adding and removing leaves the rest up to trailing newlines. |
| HostsBlock.AddTwice | cmd/entra-emulator/cli.go:142-153 | On any such file adding is idempotent. |
| HostsBlock.RemoveFromUnmarked | cmd/entra-emulator/cli.go:142-153 | Removing from a file without markers changes nothing. |
| HostsBlock.CutDuplicatesIff | cmd/entra-emulator/cli.go:143-147 | The cut makes the file longer exactly when an end marker stands wholly above the begin marker, and then repeats the text in between. |
| HostsBlock.EndAboveBegin | cmd/entra-emulator/cli.go:143-147 | A file in which that happens. |
| HostsBlock.HostsEntries | cmd/entra-emulator/cli.go:117-126 | The nested loops list the three subdomains of every domain in order. |
| HostsBlock.EntriesMeaning | cmd/entra-emulator/cli.go:117-126 | Each domain has three lines, `login`, `portal` and `graph` in that order, all for 127.0.0.1. |
| HostsBlock.CommandBodyIsUnmarked | cmd/entra-emulator/cli.go:117-126 | The body the command writes satisfies the condition of the laws above when no domain contains `#`. |

## Left out

- Provisioning.Provisioner.Sync: covers a directory nobody writes to meanwhile; concurrent writers are the subject of `Watermark`, which keeps of a cycle only which rows it lists and processes.
- Watermark.NoChangeIsLost: fixes the target; a change of target between cycles is the subject of `Convergence.ProvisionAnother`.
- Provisioning.Provisioner.AppendLog: clearing the log is not modelled.
- Convergence.FullCycleConverges: claims `active` and `displayName` for users that existed before, because the update sent to the target carries only those; it assumes distinct user names, which the table's unique column gives.
- DeviceCode.DeviceStore.Grant: client authentication and the minting of the token are outside; the reply says for whom a token is minted.
- Authorize.Identity.IssueAndDeliver: the authorization code that is also minted and stored for a pure `id_token` response, and handed to nobody, is not modelled, nor is a failing code insert or token signature.
- AuthorizeRuns.DeliveriesWereValidated: requests passed by reference or signed (`request`, `request_uri`) are not modelled, since they replace the parameters in the middle of the handler.
- CaseFold.FoldedPathDispatch: needs the path's escapes to be valid and its version segment unescaped, which is what the code's guards ask for.
- Paging.NextQuery: speaks of the link's query; `Paging.LinkLeadsBackIff` adds the path, and the origin, with the `/graph` mount the code puts in front of the path when Graph shares the login origin, is not modelled.
- Paging.WriteCollection: the grammar of `$filter` is a parameter, any predicate or a parse error.
- Projection.Project: values other than objects are opaque, and objects nested deeper than one level are compared by identity.
- AuditRings.Ring.Record: the stamping of ids and timestamps on an event is not modelled; the two recorders share one class because only `List` differs.
- TransferRoundTrip.RoundTrip: `user_type`, `external_user_state`, `updated_at`, invitation and logout URLs are not written by import and are not in the model; redirect URIs carry no row id, which is new after an import.
- Transfer.DirectoryStore.ImportDirectory: rows of other tables that the deletion of users, groups and applications cascades to are not modelled.
- RefreshFamily.RefreshStore.RedeemRefreshToken: the plaintext token and its hash are one value, and a failing database is not modelled apart from a successor that cannot be stored.
- RefreshLaws.RunKeepsInv: deleting a user, an application or a tenant deletes its refresh tokens; runs here delete no row.
- RefreshLaws.ReplayRevokesForGoodIff: the expiry, client, redirect and PKCE checks of a code exchange are one outcome given to its read step.
- GroupMembers.Directory.PatchGroup: a JSON value is an absent value, null, a string, a list of ids or anything else.
- Clock.TimeAddsUp: 64-bit overflow of seconds is not modelled.
- HTTP, HTML, cookies, JSON text, SQL text and TLS are messages, steps or contracts.
- JWT signing, key rotation, lifetime policies, SAML, WS-Federation, WebAuthn and client assertions rest on cryptography treated as opaque.
- SCIM `paginate`, inbound SCIM user PATCH, admin and Graph write handlers, soft delete and fault injection would add many members of one case each.
