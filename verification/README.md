# Sinas: a verification model of the backend's protocols and transformations

This Dafny project models the parts of the Sinas backend whose correctness is spread over many calls: the protocol that
completes a batch, the tree of suspended agent jobs, the permission algebra, the conversion of a chat history into an
Anthropic request and the streaming accumulator, `$ref` resolution, change-data-capture polling, the versioned file store,
and rate limiting. It states what holds over every input, every interleaving and every run, and where a promise of the
code's own comments is false, it gives the exact condition under which it holds. `dafny verify dfyconfig.toml` checks it.

## How the project is laid out

| file | models |
|---|---|
| `Strings.dfy` | optional values and the string operations of Python the services use, with their round trips |
| `Permissions.dfy` | the permission language: parsing, pattern matching, granting, the subset check for API keys |
| `Roles.dfy` | merging the permissions of active roles; filling in default roles at startup (`RoleStore`) |
| `ResourceAccess.dfy` | listing resources against opening one resource |
| `OpenApi.dfy` | resolution of local references in a JSON document that may refer in circles |
| `BatchModel.dfy`, `BatchProtocol.dfy`, `BatchCancel.dfy`, `BatchStore.dfy` | batch completion: the atomic steps, what every interleaving keeps, what a cancel call changes, the rows updated in place |
| `DelegationModel.dfy`, `DelegationProtocol.dfy`, `DelegationRuns.dfy`, `AgentJobs.dfy` | conversations that suspend on sub-agents: steps, every schedule, runs that go wrong, the job handlers in place |
| `Messages.dfy`, `MessageHistory.dfy`, `ToolResults.dfy`, `AnthropicRequest.dfy` | convert, merge, repair, pad: on values, what of the history is sent and where, which results find their tool use, and on the shared message objects of the code |
| `AnthropicStream.dfy` | the event loop of a streamed completion |
| `Cdc.dfy` | the poll loop with its bookmark and backoff |
| `Text.dfy`, `FileStore.dfy`, `FileProtocol.dfy`, `CollectionTools.dfy` | pages and edits of text; versioned files under concurrent writers; the agent's file tools in place |
| `RateLimit.dfy` | INCR and EXPIRE on one key, and the bound they enforce |

Protocols are state machines: a `State`, an `Action` for every atomic database, storage or queue step, `Enabled` and
`Step`, and `Run` over an arbitrary schedule. The code that changes rows in place is a class or a method with a loop, and
its contract says that it takes exactly the steps of the state machine. Wherever the outside world decides (what a query
returns among ties, which commit fails, which token a provider sends), the choice is a parameter and the results hold for
every value of it.

## Where the code and its comments disagree

The model follows the code.

* `batch_service.py:392-394` says that after a cancel the last running child fires the batch callback. It does not: the
  compare-and-set finds `finished_at` set. With one cancel call there is no callback at all exactly if children are still
  pending when the call counts them (`SilenceExactly`); `SilencedRun` reaches that state.
* `batch_service.py:441-443` promises the callback exactly once. Without a cancel that is so (`ExactlyOnce`). A cancel that
  read the batch as open writes without looking again: there is a second callback, and the status is lost, exactly if the
  batch is finished when the call writes (`SecondCallbackExactly`, `OneCancelExactly`; `OverwrittenRun` is such a run). With
  any number of cancel calls there are as many callbacks as compare-and-sets that found the batch open and cancel counts
  that found nothing pending (`CallbacksAreDecisions`).
* `rate_limit.py:16` calls the limit a sliding window. It is a fixed window per lifetime of the key: `2 * max - 1` calls
  can pass within one window (`WindowBoundReached`), never more (`WindowBound`), so the promise holds exactly for a limit
  of at most one (`SlidingWindowExactly`). A caller that crashes between INCR and EXPIRE locks the key: once it is used up,
  somebody passes again exactly if its expiry was set (`PassesAgainExactly`).
* `permissions.py:211-218` promises that an accepted subset grants no more than its superset. Only a granted superset key
  whose base has three or more segments and ends in two stars can break this: `a.*.*.x:all` accepts `a.*.x:all`, which
  grants `a.x:all`, which the first key does not (`ComposesExactly`). For any superset the promise holds exactly if it
  grants everything that such a key grants once its last star is taken away (`SubsetCheckSoundExactly`); so one such key
  alone breaks it (`OneKeySoundExactly`), but beside `a.*.x:all` it does no harm (`PairedKeyIsSound`).
* `agent_jobs.py:200-203` says that a suspended job leaves everything to its resume job. A stream that fails, or a job that
  is cancelled, after its checkpoint is stored still signals an error; a failed one also terminates the Execution and
  reports, and the resume job then does all of it again (`LateFailureSpeaksTwice`). `ExactlyOnce` of `DelegationProtocol`
  shows that this is the only way. A child that fails like that is counted twice on its parent's row, which then wakes the
  parent while another child is still out (`LateFailureWakesEarly`); rows whose own children do not fail so are exact
  (`WakesWhenAllAreOver`).
* `anthropic_provider.py:373-375` looks after tool uses without a result, but not after results without a tool use: such a
  result is sent (`OrphanIsSent`). There is none exactly if every result comes in the user's turn right after the
  assistant's turn that called for it (`NoOrphansExactly`).
* `collection_tools.py:690-698` takes a count of one for a unique match. Python counts occurrences that do not overlap, so
  this is right in every text exactly if `old_string` has no border, that is, no proper prefix that is also its suffix
  (`CountedOnceIsUniqueExactly`); a string with one is counted once but stands at two places in the text that laps it
  over itself (`CountedOnceTwoPlaces`).
* `collection_tools.py:681-706` reads a file in one call and writes it back in another. What somebody else commits in
  between becomes a version of its own, but the current text is the edit of the version before it (`LostUpdate`). Nothing
  is lost exactly if no commit of the file comes between (`NothingLostExactly`).
* `collection_tools.py:644-652` cleans up after a failed commit. When two writes of one file overlap, the second one fails
  on the unique path and deletes the blob of the version that the first one committed (`OverlapLosesBlob`). One writer is
  enough if its commit goes through and `db.refresh`, in the same `try`, fails: the error says that the commit failed, but
  the version is there and its blob is deleted (`RefreshFailureLosesBlob`). `StepStoredExactly` lists all such steps.
* `connector_openapi.py:120` strips every leading `#` and `/`, not just the prefix `#/` (`PrefixStrippedExactly`), and does
  not decode the escapes `~0` and `~1` of RFC 6901, section 4: the keys are the ones meant exactly if the path has no
  escape (`UndecodedExactly`).
* `cdc/service.py:243-256` can cut through a tie: with any limit there is a table in which a row with the value of the last
  one of the page stays behind (`TieCutThrough`), and only such rows do (`SkipsExactlyTies`). It is never delivered while
  it keeps its value (`LeftBehindForever`).

## Model

| member | source | states |
|---|---|---|
| Permissions.ParseRender | backend/app/core/permissions.py:46-94 | a well-formed permission is read back from its own text, part by part |
| Permissions.RenderParse | backend/app/core/permissions.py:46-94 | exactly the texts with a colon and a dot before it are permissions, and their parts give the text back |
| Permissions.LiteralExactly | backend/app/core/permissions.py:34-44 | a key without wildcards grants itself and, for `:all`, the same for `:own`, and nothing else |
| Permissions.ServiceWildcardExactly | backend/app/core/permissions.py:30-32 | `service.*:all` grants exactly the permissions under the service, whatever their depth, path, action and scope |
| Permissions.NamespaceWildcardExactly | backend/app/core/permissions.py:38-41 | a star for the name grants the action on every name of that namespace and on nothing else |
| Permissions.TrailingStarExactly | backend/app/core/permissions.py:96-150 | `prefix.*.action:scope` grants the action, whatever it is for a star, on exactly the resources under the prefix, at its depth or deeper, with any path unless the key has one |
| Permissions.ActionStarExactly | backend/app/core/permissions.py:72-150 | `base.*:scope` grants every action on exactly the resource and those below it, with any path unless the key has one |
| Permissions.BaseStarIsAnySegment | backend/app/core/permissions.py:107-120 | a star inside the base grants what the key with some segment in its place grants, and nothing else |
| Permissions.PathStarIsAnySegment | backend/app/core/permissions.py:144-158 | the same for a star anywhere in the path, which never stands for two segments or for none |
| Permissions.ScopeStarIsAll | backend/app/core/permissions.py:54-63 | a scope star grants what `:all` grants, and no pattern grants a scope other than `own` and `all` |
| Permissions.UnreadableIsNeverMatched | backend/app/core/permissions.py:46-72 | a text without scope or action matches nothing and is matched by nothing |
| Permissions.GrantedExactly | backend/app/core/permissions.py:199-208 | a permission is granted if and only if one key that is set is its own text or matches it |
| Permissions.DeniedKeyDoesNothing | backend/app/core/permissions.py:199-208 | a key set to false grants nothing and takes nothing away |
| Permissions.ScopesAreOrdered | backend/app/core/permissions.py:43-63 | `:all` grants whatever `:own` grants, and no `:own` key grants anything for `:all` |
| Permissions.CoversTransitive | backend/app/core/permissions.py:74-158 | what a pattern accepts through an intermediate pattern it accepts itself, both prefix rules, paths, actions and scopes included, unless it ends in two stars and the intermediate one in a star |
| Permissions.ComposesExactly | backend/app/core/permissions.py:46-158 | a key accepts everything its accepted patterns accept if and only if it is not a valid key of three or more base segments ending in two stars |
| Permissions.UncoveredGrant | backend/app/core/permissions.py:96-111 | for every key of that shape, a pattern it accepts and a permission that this pattern grants but the key does not |
| Permissions.ValidatePermissionSubset | backend/app/core/permissions.py:248-256 | valid exactly when every granted key is granted by the superset; the violations are exactly the other granted keys, in order |
| Permissions.ViolationsInOrder | backend/app/core/permissions.py:248-256 | the violations come in the order of the keys |
| Permissions.AcceptedIsSound | backend/app/core/permissions.py:211-256 | every permission an accepted subset grants is granted by the superset, unless a granted superset key has the shape that does not compose |
| Permissions.SubsetCheckSoundExactly | backend/app/core/permissions.py:211-256 | for every superset the check is sound, for all subsets and permissions, if and only if the superset grants whatever its keys of that shape grant without their last star |
| Permissions.OneKeySoundExactly | backend/app/core/permissions.py:211-256 | for a superset of one key the check is sound if and only if the key does not have that shape |
| Permissions.PairedKeyIsSound | backend/app/core/permissions.py:211-256 | a key of that shape beside the same key without its last star, if that has not the shape in turn, is sound |
| Roles.GetUserPermissions | backend/app/core/auth.py:273-288 | the nested loops compute the merge of the active roles' rows: a permission is present if an active role has a row for it, and true if an active role has a true one |
| Roles.MergeRole | backend/app/core/auth.py:281-285 | one role's rows are merged after those read before |
| Roles.MergeGrantsMeaning | backend/app/core/auth.py:281-288 | a key is present if some row has it, and true exactly if some row grants it: false never overrides true |
| Roles.MergeOrderIndependent | backend/app/core/auth.py:275-285 | the order and the repetition of roles do not matter |
| Roles.MergedGrantsExactly | backend/app/core/auth.py:252-288 | the merged permissions grant a request if and only if one active role grants it on its own |
| Roles.RoleStore.InitializeDefaultRoles | backend/app/core/auth.py:809-842 | every default role exists afterwards with its missing permissions added and its customised ones kept; no other role changes |
| Roles.RoleStore.InitializeRole | backend/app/core/auth.py:810-842 | the same for one role, in place |
| Roles.FilledExactly | backend/app/core/auth.py:810-842 | a customised permission stays, a missing one gets its default, nothing else appears; only `sinas.*:all` of the role `Admins` is set whatever it was |
| Roles.FilledTwice | backend/app/core/auth.py:821-840 | a second startup changes nothing |
| Roles.AdminsKeepFullAccess | backend/app/core/auth.py:823-835 | whatever was customised, startup leaves administrators every permission under `sinas` |
| ResourceAccess.ListQuery | backend/app/models/mixins.py:97-133 | through the `:all` or `:own` branch, for names without a slash: a row that no `:all` grant covers is listed if and only if the same user can open it, and through `:all` every row is listed; these branches are left exactly if the user has neither grant over the wildcard form |
| ResourceAccess.StrangerIsRefused | backend/app/models/mixins.py:255-264 | without an `:all` grant, somebody else's row that is private, or of a model without visibility, cannot be opened, whatever the user holds for `:own` |
| ResourceAccess.UngrantedIsRefused | backend/app/models/mixins.py:251-269 | without a grant nobody opens a row, not even its owner |
| ResourceAccess.GrantedOpens | backend/app/models/mixins.py:251-267 | `:all` opens every row; `:own` opens one's own rows, the shared ones, and those of models without an owner |
| ResourceAccess.OneKeyOpensExactly | backend/app/models/mixins.py:241-269 | a user with the one key for a row opens it if and only if its scope is `all` or the row is the user's own, nobody's or shared |
| ResourceAccess.RequiredParses | backend/app/models/mixins.py:244-249 | the permission asked for names the model's table and, for a namespaced model, exactly the row's namespace and name |
| ResourceAccess.WildcardGrantsRow | backend/app/models/mixins.py:100-113 | a grant over all namespaces and names grants each row, whichever key and scope it comes from |
| ResourceAccess.WildcardCoversExactly | backend/app/models/mixins.py:241-256 | the wildcard form covers a row if and only if neither namespace nor name contains a slash |
| ResourceAccess.KeyGrantsRowExactly | backend/app/models/mixins.py:241-256 | a key that grants the wildcard form grants a row if and only if neither part of the row's name contains a slash or the key has no path |
| ResourceAccess.SlashRowGrantedExactly | backend/app/models/mixins.py:241-256 | a row with a slash is granted, and otherwise refused though listed, if and only if a granting key of the listing has no path or some other key grants it by itself |
| OpenApi.Lookup | backend/app/services/connector_openapi.py:120-123 | the loop over the path returns the value its keys lead to, place by place; an empty object exactly where a key is missing; and raises exactly where something other than an object is in the way |
| OpenApi.LeadsExactly | backend/app/services/connector_openapi.py:120-123 | the same for the walk, over locations defined by the places of fields: exactly one of found, missing and blocked |
| OpenApi.StrippedExactly | backend/app/services/connector_openapi.py:120-120 | what is stripped from a reference is its longest run of `#` and `/` |
| OpenApi.RefOfExactly | backend/app/services/connector_openapi.py:113-116 | a reference is local, external, no text or absent, by the object's first `$ref` |
| OpenApi.PrefixStrippedExactly | backend/app/services/connector_openapi.py:120-120 | `lstrip` takes off just the prefix if and only if the path does not itself start with one of its characters |
| OpenApi.UndecodedExactly | backend/app/services/connector_openapi.py:120-123 | splitting the path gives the keys that are meant if and only if the path has no escape |
| OpenApi.PathReached | backend/app/services/connector_openapi.py:120-123 | a reference made of keys gives the value at the location they name, an empty object exactly where one is missing, and an error exactly where a non-object is met first, unless the first key starts with a stripped character |
| OpenApi.RefResolvesExactly | backend/app/services/connector_openapi.py:114-124 | a local reference becomes what its keys lead to, resolved; an empty object; an error; or, once seen, the circular placeholder |
| OpenApi.ObjectResolvesExactly | backend/app/services/connector_openapi.py:125-125 | an object without `$ref` keeps its keys in order, each value resolved, and fails exactly if one of them does |
| OpenApi.ListResolvesExactly | backend/app/services/connector_openapi.py:126-127 | a list is resolved item by item |
| OpenApi.OthersStay | backend/app/services/connector_openapi.py:113-128 | external references and plain values stay as they are; a `$ref` that is not text raises |
| OpenApi.ResolveResolves | backend/app/services/connector_openapi.py:105-128 | the result has no local reference left outside external-reference objects, cyclic documents included |
| OpenApi.ResolveIdempotent | backend/app/services/connector_openapi.py:105-128 | resolving a result again, in any document, changes nothing |
| OpenApi.ResolveIsExpansion | backend/app/services/connector_openapi.py:112-127 | where full substitution ends at some depth, resolving gives exactly that substitution, or raises exactly where it does |
| OpenApi.AcyclicResolvesToExpansion | backend/app/services/connector_openapi.py:105-128 | the same for a whole document |
| OpenApi.RankedResolvesToExpansion | backend/app/services/connector_openapi.py:105-128 | a document whose references can be ranked downwards resolves to its full substitution and shows no placeholder of its own |
| OpenApi.ResolveFinishes | backend/app/services/connector_openapi.py:105-128 | resolving ends on every document, cyclic ones included, in a value or where the code raises |
| OpenApi.ExpandsUnlessCyclic | backend/app/services/connector_openapi.py:105-128 | of any document, resolving is full substitution if and only if substitution ends |
| OpenApi.PlaceholderIffCyclic | backend/app/services/connector_openapi.py:117-118 | the result shows the circular placeholder if and only if substitution never ends |
| BatchModel.CountsAddUp | backend/app/services/batch_service.py:291-303 | completed, failed, cancelled, running and queued add up to the number of children |
| BatchModel.CountsExactly | backend/app/services/batch_service.py:291-303 | each count is the number of children with that status, and the pending count that of those waiting, running or awaiting input |
| BatchModel.CancelExactly | backend/app/services/batch_service.py:378-386 | a cancel sets exactly the pending and waiting children to CANCELLED, counts them, and leaves the running ones pending |
| BatchModel.NonePending | backend/app/services/batch_service.py:409-418 | the pending count is zero exactly when every child is terminal |
| BatchModel.DeriveMeaning | backend/app/services/batch_service.py:421-435 | the derived status is terminal, and is Completed, Failed or Cancelled exactly when all children are |
| BatchProtocol.RunSafe | backend/app/services/batch_service.py:361-476 | in every interleaving with any number of cancels: terminal means finished, one participant finished the batch, and the callbacks sent are those of the participants that fired |
| BatchProtocol.StatusAndCounts | backend/app/services/batch_service.py:291-303 | status is terminal exactly when the batch is finished, never goes back, and the counts always add up |
| BatchProtocol.CallbacksCounted | backend/app/services/batch_service.py:395-397 | the log holds one callback for each participant that fired, and no other |
| BatchProtocol.SentAsTallied | backend/app/services/batch_service.py:456-476 | in every run a handler's callback carries the counts it tallied before it claimed the batch, whatever the others do in between, and a cancel's callback says CANCELLED |
| BatchCancel.CallbacksAreDecisions | backend/app/services/batch_service.py:395-476 | with any number of cancels, once nobody is about to send: as many callbacks as steps of the schedule that found the batch open at the compare-and-set, or nothing pending at the cancel's count; handlers that are never called included |
| BatchCancel.OneCancelExactly | backend/app/services/batch_service.py:361-476 | with one cancel, in every interleaving, once nobody is about to send: at most two callbacks; two if and only if the cancel wrote over a finished batch, none if and only if it finished the batch and found children pending |
| BatchCancel.SecondCallbackExactly | backend/app/services/batch_service.py:370-397 | a second callback goes out if and only if the batch is finished when the cancel writes; its status becomes Cancelled either way |
| BatchCancel.SilenceExactly | backend/app/services/batch_service.py:392-397 | no callback ever goes out if and only if children are pending when the cancel counts them |
| BatchCancel.WaitingChildRun | backend/app/services/execution_engine.py:514-517 | a run at rest with a child cancelled while it waited for input, whose handler is never called: one callback |
| BatchProtocol.AtMostOnce | backend/app/services/batch_service.py:438-476 | with any number of cancels: at most one callback if none of them wrote over a batch finished since it looked |
| BatchProtocol.ExactlyOnce | backend/app/services/batch_service.py:438-476 | without cancels, in every interleaving: when all handlers have returned, one compare-and-set won, the status is that of the final children, and one callback carried both |
| BatchProtocol.StepsRunOut | backend/app/services/batch_service.py:438-476 | every step of a handler or cancel brings it nearer to its end |
| BatchProtocol.CanComplete | backend/app/services/batch_service.py:438-476 | from every state some continuation lets every participant return: nobody blocks anybody |
| BatchProtocol.CancelSilencesRunning | backend/app/services/batch_service.py:388-397 | from any safe state in which the one cancel call finished the batch and sent nothing, no continuation sends anything |
| BatchProtocol.SilencedRun | backend/app/services/batch_service.py:378-397 | a run that reaches that state |
| BatchProtocol.OverwrittenRun | backend/app/services/batch_service.py:370-397 | a run in which a cancel turns COMPLETED into CANCELLED and sends a second callback |
| BatchStore.Batch.SubmitFunctionBatch | backend/app/services/batch_service.py:66-113 | an empty or oversized submission is refused; otherwise the batch is queued and unfinished with one pending child per input |
| BatchStore.Batch.Perform | backend/app/services/batch_service.py:370-476 | each database step, in place, is the model's step |
| BatchStore.Batch.Execute | backend/app/services/batch_service.py:361-476 | any schedule of steps, in place, is the model's run |
| BatchStore.Batch.OnExecutionTerminated | backend/app/services/batch_service.py:438-476 | an undisturbed call bumps the status, loses the race or completes the batch, as the children and `finished_at` say |
| BatchStore.Batch.CancelBatch | backend/app/services/batch_service.py:370-403 | an undisturbed cancel changes nothing on a finished batch; otherwise each child is CANCELLED if it was pending or awaiting input and unchanged if not, the result is the number of children changed, still pending are exactly those that run, and the callback goes out if there are none |
| DelegationProtocol.StepSound | backend/app/queue/agent_jobs.py:174-286 | every step, faults and cancellations included, keeps each conversation with one holder and its announcements accounted for |
| DelegationModel.RunTells | backend/app/queue/agent_jobs.py:143-301 | in every run each job's status tells where it stands: queued, running, completed exactly with an answer, failed, or suspended on a checkpoint of its own |
| DelegationProtocol.ExactlyOnce | backend/app/queue/agent_jobs.py:200-243 | a conversation none of whose jobs failed after storing a checkpoint has announced, terminated and reported exactly what is due, once and with one outcome; a finished one has signalled once if and only if it is such a conversation |
| DelegationProtocol.MetadataInherited | backend/app/queue/agent_jobs.py:492-504 | every job of a conversation, however many resumptions later, owes what the first one owed |
| DelegationProtocol.ChildJoined | backend/app/services/delegation.py:136-178 | on a row whose children did not fail late, a live child's report finds the row open and takes exactly that child off it |
| DelegationProtocol.SleepsForAReason | backend/app/services/delegation.py:173-178 | in every run an open row has a child that is not over |
| DelegationProtocol.WakesWhenAllAreOver | backend/app/services/delegation.py:136-204 | if none of its own children failed late, the parent sleeps exactly as long as some child is not over, and wakes with each child's own outcome, one per call |
| DelegationProtocol.FinishedUnlessBlocked | backend/app/services/delegation.py:117-207 | in every run, when nothing more can happen, a conversation is over if and only if no cancelled job stands below it |
| DelegationProtocol.EverybodyFinishes | backend/app/queue/agent_jobs.py:200-286 | if nothing was cancelled and nothing more can happen, every conversation is over, parents included, and has signalled once plus once for each late failure |
| DelegationProtocol.CancelledChildBlocks | backend/app/queue/agent_jobs.py:288-300 | a cancelled child never reports: its parent sleeps in every continuation in which no child of the same row failed late |
| DelegationRuns.LateFailureSpeaksTwice | backend/app/queue/agent_jobs.py:248-286 | a run in which one conversation says Error and then Done, and terminates its Execution twice |
| DelegationRuns.LateFailureWakesEarly | backend/app/services/delegation.py:171-178 | a run in which a child reports twice and its parent wakes before the second child has started |
| DelegationRuns.CancelledChildRun | backend/app/queue/agent_jobs.py:288-300 | a run that ends with a cancelled child and its parent asleep, and nothing left to happen |
| AgentJobs.Records.SuspendDelegations | backend/app/services/delegation.py:81-114 | one open checkpoint with the job's metadata and as many awaited as calls, then one queued child per call, each reporting to that checkpoint under its own call |
| AgentJobs.Records.OnChildComplete | backend/app/services/delegation.py:136-204 | the result is added under its call and one fewer is awaited; the last one closes the row and queues one resume job with the checkpoint's metadata; a row that is gone is left alone |
| AgentJobs.Records.Consume | backend/app/queue/agent_jobs.py:184-192 | one chunk, in place, is the model's step, with the flags kept in local variables |
| AgentJobs.Records.Finish | backend/app/queue/agent_jobs.py:200-286 | a suspended job says nothing; any other signals once, terminates the Execution if there is one and reports if there is a parent, with the answer or the error |
| AgentJobs.Records.ExecuteJob | backend/app/queue/agent_jobs.py:142-286 | a whole message or delegate-resume job is a run of the model, for every stream of chunks and every fault; it is suspended in silence, or ends by saying the chunks' text in their order, or the fault, to everybody it owes it |
| DelegationModel.ConcatExactly | backend/app/queue/agent_jobs.py:195-195 | the reported answer is the chunks in their order, with nothing in between |
| DelegationModel.CancelledExactly | backend/app/queue/agent_jobs.py:288-300 | a cancelled job signals `Job cancelled or timed out` and fails; it terminates no row and reports to no parent |
| Messages.ShapeIsAcceptable | backend/app/providers/anthropic_provider.py:349-429 | for every list of messages the result starts and ends with the user, alternates, and answers every tool use in the next message |
| Messages.ContentPreserved | backend/app/providers/anthropic_provider.py:349-429 | deleting the synthetic results and the two fillers gives back the converted messages, block for block and in order |
| Messages.ShapeIdempotent | backend/app/providers/anthropic_provider.py:349-429 | merging, repairing and padding a result again changes nothing |
| Messages.ShapeFixed | backend/app/providers/anthropic_provider.py:349-429 | an acceptable list is left as it is |
| Messages.ResultIsSent | backend/app/providers/anthropic_provider.py:281-299 | every tool result of the history with an id is sent, word for word, by the user |
| Messages.CallIsSentAndAnswered | backend/app/providers/anthropic_provider.py:301-417 | every tool call of the history is sent by the assistant and, if it has an id, answered in the very next message |
| Messages.MergeKeepsContent | backend/app/providers/anthropic_provider.py:349-371 | merging neighbours of one role moves no block |
| Messages.RepairPairs | backend/app/providers/anthropic_provider.py:373-417 | after the repair, a tool use is answered in the very next message |
| MessageHistory.HistoryIsSent | backend/app/providers/anthropic_provider.py:270-427 | the whole history is sent: message after message, what each says stands block for block at ascending places in messages of its speaker, tool calls with their arguments and results included; at all other places are only interrupted results and the two fillers |
| MessageHistory.SystemMessageExactly | backend/app/providers/anthropic_provider.py:276-279 | the system prompt is the last system message of the history, if there is one |
| MessageHistory.MergedExactly | backend/app/providers/anthropic_provider.py:349-371 | a message joins the one before it exactly if the role is the same, with its blocks behind |
| MessageHistory.UseIdsExactly | backend/app/providers/anthropic_provider.py:380-385 | the ids looked for are those of the tool uses, block by block, without missing and empty ones |
| MessageHistory.UnansweredExactly | backend/app/providers/anthropic_provider.py:386-398 | the ids found missing are, in order, those for which the next message is not the user's or has no result |
| MessageHistory.RepairedExactly | backend/app/providers/anthropic_provider.py:398-414 | a user's message gets exactly the interrupted results for the unanswered calls before it, in front, and any other stays |
| MessageHistory.RepairedEnd | backend/app/providers/anthropic_provider.py:415-417 | unanswered calls of a last message get exactly one message more, with their interrupted results |
| MessageHistory.PaddedExactly | backend/app/providers/anthropic_provider.py:421-427 | `Continue the conversation.` is put in front exactly if the assistant opens, `Continue.` behind exactly if it would close |
| ToolResults.NoOrphansExactly | backend/app/providers/anthropic_provider.py:349-427 | every result sent answers a tool use of the message before it if and only if, in the converted history, every result comes in the user's turn right after the assistant's turn that called for it |
| ToolResults.OrphanIsSent | backend/app/providers/anthropic_provider.py:281-299 | a result nobody called for is sent all the same |
| AnthropicRequest.ConvertMessages | backend/app/providers/anthropic_provider.py:270-347 | new message objects that say what the conversion says, which `HistoryIsSent` ties to the history word for word, and the last system message |
| AnthropicRequest.MergeMessages | backend/app/providers/anthropic_provider.py:349-371 | merging in place on distinct objects is the merge on values |
| AnthropicRequest.RepairMessages | backend/app/providers/anthropic_provider.py:373-419 | the repair in place, which rewrites the message after the one it reads, is the repair on values |
| AnthropicRequest.PadMessages | backend/app/providers/anthropic_provider.py:421-427 | the fillers are put where the first or last message is not the user's |
| AnthropicRequest.ApplyCacheControl | backend/app/providers/anthropic_provider.py:224-253 | the last tool, a system string and the last block of the last message end up marked; at most three objects gain a marker, no block that was there is written to, and the request says the same |
| AnthropicRequest.RewordingStaysAcceptable | backend/app/providers/anthropic_provider.py:236-253 | turning a string into a one-block list keeps a request acceptable |
| AnthropicRequest.ConvertTools | backend/app/providers/anthropic_provider.py:431-442 | one new, unmarked tool per function tool, in order |
| AnthropicRequest.FunctionDataExactly | backend/app/providers/anthropic_provider.py:431-442 | tool by tool, what a function tool says, and nothing of any other |
| AnthropicRequest.SystemSentExactly | backend/app/providers/anthropic_provider.py:103-104 | a system prompt goes out as one block if it is text and as it is if it is blocks; an empty one does not go out |
| AnthropicRequest.AsInputExactly | backend/app/providers/anthropic_provider.py:270-337 | a dictionary of the history is read by its role |
| AnthropicRequest.BuildRequest | backend/app/providers/anthropic_provider.py:89-110 | for every history: an acceptable request with the words of the four stages, which by `HistoryIsSent` are those of the history, marked at its ends if caching is on and not otherwise, and nothing of the caller's changed |
| AnthropicStream.Stream | backend/app/providers/anthropic_provider.py:112-211 | for every stream of events each chunk is what the events so far call for, and the calls held are those the events built |
| AnthropicStream.Handle | backend/app/providers/anthropic_provider.py:125-211 | the same for one event |
| AnthropicStream.ContentAgrees | backend/app/providers/anthropic_provider.py:156-159 | the emitted content is the text of the stream |
| AnthropicStream.PiecesAgree | backend/app/providers/anthropic_provider.py:160-186 | the pieces emitted for a block are its argument text, in order, and there are as many chunks as are due |
| AnthropicStream.OneCallPerIndex | backend/app/providers/anthropic_provider.py:142-166 | in a well-formed stream a block's argument text is that of its one call |
| AnthropicStream.ChunksGiveCalls | backend/app/providers/anthropic_provider.py:142-186 | grouping the chunks by block gives back the accumulated calls with their ids and names; a call without arguments is emitted exactly once |
| AnthropicStream.TokensExactly | backend/app/providers/anthropic_provider.py:131-137 | every count in force is the one reported by the last event that reports it, or zero |
| AnthropicStream.UsageExactly | backend/app/providers/anthropic_provider.py:188-209 | usage goes out with the end of the message and only then; its prompt is everything read, uncached, from and into the cache, and its total the prompt and what was written |
| AnthropicStream.ContentAndFinishExactly | backend/app/providers/anthropic_provider.py:156-199 | a piece of text goes out with its own event, a stop reason with the delta that gives one, and `stop` with the end |
| AnthropicStream.CallIdExactly | backend/app/providers/anthropic_provider.py:145-145 | a call keeps the id it is given and gets the fallback of its index without one |
| AnthropicStream.CallExactly | backend/app/providers/anthropic_provider.py:139-166 | the call held for a block has the id and name of its latest start and the argument text since |
| AnthropicStream.ToolExactly | backend/app/providers/anthropic_provider.py:160-186 | a piece of arguments goes out under its block with that id and name; the end of a block gives the call exactly if no argument text came since its start |
| AnthropicStream.NoToolExactly | backend/app/providers/anthropic_provider.py:156-186 | nothing goes out for a block that was never started, nor with other events |
| Cdc.SkipsExactlyTies | backend/app/cdc/service.py:243-256 | a page can leave behind only rows tied with its last one |
| Cdc.TieCutThrough | backend/app/cdc/service.py:243-256 | for any limit there is a table and a page that leaves a row of the last value behind |
| Cdc.LeftBehindForever | backend/app/cdc/service.py:243-256 | over every run, a row the bookmark has passed without delivering it is not delivered while it keeps its value |
| Cdc.PageMovesOn | backend/app/cdc/service.py:243-256 | with a positive limit a poll advances whenever there is something above the bookmark |
| Cdc.Trigger.PollOnce | backend/app/cdc/service.py:210-289 | by the place of the failure: nothing happens, the bookmark is initialised, the page is enqueued but not recorded, or the page is enqueued and the bookmark set to its last value |
| Cdc.Trigger.Turn | backend/app/cdc/service.py:166-295 | over an evolving table a turn skips nothing but ties, invents nothing and never lowers the bookmark; without a fault it repeats nothing; without ties it skips nothing |
| Cdc.Trigger.Rest | backend/app/cdc/service.py:297-328 | backoff doubles up to a minute on a failure and is reset by a success |
| Cdc.FailuresExactly | backend/app/cdc/service.py:298-327 | the failures counted are those since the last turn that went well |
| Cdc.BackoffExactly | backend/app/cdc/service.py:324-327 | after that many failures in a row the delay is 1, 2, 4, 8, 16, 32 and then 60 seconds |
| Cdc.Trigger.RunPollLoop | backend/app/cdc/service.py:163-331 | over every run: at least once with faults, exactly once and in order without, up to ties and exactly if there are none; the bookmark monotone, the backoff and every sleep determined by the failures in a row |
| Text.PagesRejoin | backend/app/services/collection_tools.py:526-551 | raw pages of any size join to the text, and the reported ranges partition its lines |
| Text.NumberedReadsBack | backend/app/services/collection_tools.py:537-545 | every line of a numbered page can be read off it, with its own number |
| Text.PageExactly | backend/app/services/collection_tools.py:531-535 | every page is the stretch of lines asked for, an offset below one counting as one and a limit that ends before the first line counting from the back |
| Text.WholePage | backend/app/services/collection_tools.py:526-552 | without offset and limit a page is the whole text, without a limit the rest of it |
| Text.DecimalExactly | backend/app/services/collection_tools.py:537-545 | a line number's digits read as that number, without leading zeros |
| Text.PaddedExactly | backend/app/services/collection_tools.py:537-545 | it is right-aligned in six columns, with blanks before it |
| Text.CountZeroExactly | backend/app/services/collection_tools.py:688-691 | a count of zero means that the string occurs nowhere, overlapping places included |
| Text.OnceUpToOverlap | backend/app/services/collection_tools.py:690-698 | with a count of one every further occurrence overlaps the first |
| Text.CountedOnceIsUniqueExactly | backend/app/services/collection_tools.py:688-698 | a count of one means one place in every text if and only if the string has no border |
| Text.CountedOnceTwoPlaces | backend/app/services/collection_tools.py:690-698 | for every string with a border, a text in which it is counted once but stands at two places |
| Text.ReplacedAtOnlyPlace | backend/app/services/collection_tools.py:700-700 | counted once and without a border, the string is replaced at the only place where it stands |
| Text.ReplacedOnce | backend/app/services/collection_tools.py:700-700 | counted once, replacing the first is replacing all, and only that stretch changes |
| Text.ReplacedExactly | backend/app/services/collection_tools.py:690-700 | with any number of occurrences: the first one found is replaced, and replacing and counting go on behind it; a string that does not occur changes nothing |
| Text.ReplaceAllLength | backend/app/services/collection_tools.py:700-700 | replacing by the same changes nothing; otherwise the length changes by the difference, once per counted occurrence |
| FileStore.PathInjective | backend/app/services/collection_tools.py:626-626 | two versions share a storage path only if they are the same version of the same file |
| FileProtocol.StepSound | backend/app/services/collection_tools.py:596-659 | every step of any number of writers, whatever fails, keeps the committed versions at exactly 1 to the current one, each at its own path |
| FileProtocol.AlwaysConsecutive | backend/app/services/collection_tools.py:596-659 | the same over every run |
| FileProtocol.PathTakenExactly | backend/app/models/file.py:137-137 | the unique path refuses exactly the version numbers already committed |
| FileProtocol.CommittedIsNext | backend/app/services/collection_tools.py:606-645 | a commit that is let through is the next version, even of a writer that read an old row |
| FileProtocol.StepStoredExactly | backend/app/services/collection_tools.py:626-652 | a step keeps the content of every committed version if and only if it does not write over one, clean one up, be it its own whose row could not be read back, or delete blobs without the row |
| FileProtocol.HistoryKept | backend/app/services/collection_tools.py:596-659 | a committed version never changes until its file is deleted |
| FileProtocol.StoredWhenPolite | backend/app/services/collection_tools.py:596-659 | when no two writes of one file overlap, no refresh fails into a clean-up and no delete fails, every committed version has its content at its path in every run |
| FileProtocol.AloneIsPolite | backend/app/services/collection_tools.py:596-659 | a schedule of a single writer meets that condition as long as its deletes commit and no failed refresh is cleaned up, whatever saves and commits fail |
| FileProtocol.RefreshFailureLosesBlob | backend/app/services/collection_tools.py:644-652 | from any state with an admissible write, a commit that goes through with a refresh that fails leaves the new version without its blob |
| FileProtocol.OverlapLosesBlob | backend/app/services/collection_tools.py:606-652 | from any state, two overlapping writes of any file can leave a committed version without a blob |
| FileProtocol.WriteAppends | backend/app/services/collection_tools.py:596-659 | from any state, an undisturbed write adds the next version with its content and keeps every earlier one |
| FileProtocol.LostUpdate | backend/app/services/collection_tools.py:680-706 | from any state, a write committed between the reading and the writing back of an edit is replaced by an edit of the older text |
| FileProtocol.CurrentCounts | backend/app/services/collection_tools.py:596-659 | while a file is not deleted, in every run, its current version counts the commits that went through, and every version it had stays as it was |
| FileProtocol.NothingLostExactly | backend/app/services/collection_tools.py:680-706 | whatever happens between the reading and the writing back of an edit, the edit's version directly follows the one read if and only if no commit of the file came between |
| CollectionTools.InferContentType | backend/app/services/collection_tools.py:768-774 | the type of the first fitting extension, and always one that is read back as text |
| CollectionTools.IsTextExactly | backend/app/services/collection_tools.py:16-43 | read as text are the types that say so and nine application types, no others |
| CollectionTools.TypeExactly | backend/app/services/collection_tools.py:768-774 | the first extension in the list that ends the name, in any case, decides; plain text without one |
| CollectionTools.ViewExactly | backend/app/services/collection_tools.py:526-551 | a reader sees the whole text as it is or numbered, or the page asked for, with its range exactly if it is numbered |
| CollectionTools.DeletedExactly | backend/app/services/collection_tools.py:730-744 | a delete takes the blobs of the file that can be deleted and, with its commit, exactly the file and its version rows |
| CollectionTools.WriteStepsRun | backend/app/services/collection_tools.py:596-659 | an undisturbed write is a run of the protocol, in each of its outcomes |
| CollectionTools.Collections.WriteFile | backend/app/services/collection_tools.py:567-659 | a success adds exactly the next version with the content given; a failed save or refused commit changes no row; a commit that cannot be read back has added the version, and its clean-up takes the content away; nothing else is lost; a new file is shared, the writer's, with version 1 and the type of its extension; nobody else's private file changes |
| CollectionTools.Collections.GetFile | backend/app/services/collection_tools.py:463-557 | a reader is shown what the storage holds, paged as asked, which is the content last committed if no blob is missing, or the exact reason why not; a version row is never missing |
| CollectionTools.Collections.ReadForEdit | backend/app/services/collection_tools.py:675-700 | what an edit counts and makes of the text it reads, or the exact reason why it is refused |
| CollectionTools.Collections.EditFile | backend/app/services/collection_tools.py:661-706 | an undisturbed edit replaces what it counted in the text it read, as the next version of that file, and at the only place if the string has no border; a refused edit or failed write changes no row |
| CollectionTools.Collections.DeleteFile | backend/app/services/collection_tools.py:708-746 | a delete that commits removes the file, its rows and its blobs, and takes no other version's content |
| RateLimit.RunGood | backend/app/core/rate_limit.py:21-29 | in every run counts go 1, 2, 3 within a lifetime of the key, and lifetimes start a window apart |
| RateLimit.PerLifetime | backend/app/core/rate_limit.py:21-25 | at most `max` calls pass in one lifetime of the key |
| RateLimit.WindowBound | backend/app/core/rate_limit.py:21-29 | in every run, crashes included, at most `2 * max - 1` calls pass within one window |
| RateLimit.WindowBoundReached | backend/app/core/rate_limit.py:21-29 | for every limit and window there is a run that reaches that bound |
| RateLimit.ClosedWindowBound | backend/app/core/rate_limit.py:21-29 | in every run, both ends of a window included, at most `2 * max` calls pass |
| RateLimit.ClosedWindowBoundReached | backend/app/core/rate_limit.py:21-29 | and there is a run that reaches that bound |
| RateLimit.SlidingWindowExactly | backend/app/core/rate_limit.py:14-29 | the limit holds in every interval as long as the window, for every run, if and only if it is at most one |
| RateLimit.LockedOut | backend/app/core/rate_limit.py:21-23 | without its EXPIRE, a used-up key lets nobody pass again |
| RateLimit.CrashedCallers | backend/app/core/rate_limit.py:21-23 | the runs that reach such a key |
| RateLimit.PassesAgainExactly | backend/app/core/rate_limit.py:21-29 | a used-up key lets somebody pass again, without a further EXPIRE, if and only if its expiry is set |
| RateLimit.Limiter.CheckRateLimit | backend/app/core/rate_limit.py:12-29 | a call passes exactly if its count is within the limit; a new or expired key starts at one with an expiry a window away, any other counts on; and the log stays within the bound |
| RateLimit.Limiter.Increment | backend/app/core/rate_limit.py:21-21 | the counter in place is the model's step: one on a new or expired key, one more on any other |
| RateLimit.Limiter.Arm | backend/app/core/rate_limit.py:22-23 | the expiry is set a window away if the key has none |

## Left out

* ResourceAccess.ListQuery: says nothing of the rows listed through the namespace branch (`mixins.py:126-142`), which follows
  rules of its own, nor of models that override `can_user_access`, such as `User`.
* Cdc.Trigger.RunPollLoop: a table in which a row takes a value at or below one seen before is not covered. The stop event,
  the text form of the bookmark and its cast to the column type are not modelled.
* Cdc.Trigger.Turn: the same.
* DelegationProtocol.ExactlyOnce: a job can fail or be cancelled only while its stream runs; a failure between the done event,
  the Execution update and the report is not modelled.
* AgentJobs.Records.ExecuteJob: runs one job with nobody in between; what happens when jobs interleave is the subject of
  `DelegationProtocol`, over the same steps.
* CollectionTools.Collections.EditFile: runs with nobody between the reading and the writing back; `LostUpdate` is about
  what can happen there.
* BatchProtocol.CanComplete: the continuation may call the handler of a cancelled child; `BatchCancel` does not rely on it.
* DelegationProtocol.CancelledChildBlocks: a sibling that fails late can wake the parent all the same.
* FileProtocol.StepSound: a delete is one step, blobs and rows together, and waits for a write that holds the row.
* CollectionTools.Collections.WriteFile: bytes and characters are the same; sizes are exact numbers instead of floats.
* BatchStore.Batch.SubmitFunctionBatch: the lookup of the function, the queueing and the identifiers are not modelled.
* AnthropicRequest.ConvertTools: the parts of a tool and of a block other than its kind and ids are abstract data.
* OpenApi.PlaceholderIffCyclic: a document that already contains the placeholder's text is excluded; `ExpandsUnlessCyclic`
  is about every document.
* The process that starts and stops poll loops (`CDCManager`), which loops it holds and its reload.
* `_simplify_schema`, `_build_parameters` and `extract_operations`, which walk an already resolved document.
* Stream chunks that are not dictionaries: a message job turns them into content, a resume job drops them.
* `execute_agent_resume_job` (tool approval), which neither suspends nor reports.
* `submit_agent_batch` beyond the row creation it shares with function batches; listing and paging of executions.
* The delivery of callbacks over HTTP, their tokens and retries; pings, traces and logs.
* Search and listing in collections, metadata, binary files and their URLs; uploads that do not come from an agent.
* The non-streaming completion and the other providers.
* Redis, PostgreSQL and the storage backends themselves: a command, a statement or a call is one atomic step.
* Authentication, tokens, hashing, encryption, schemas, migrations, scheduling, containers and the console.
