# provider-minio: a verified model of its reconcile loops

The provider manages MinIO objects for Kubernetes resources. For each kind, `Observe` compares the
remote state with a spec, and `Create`, `Update` or `Delete` rewrites it. This project models those
loops as steps over a shared server, with many resources, any order of reconciles, and API calls
that may fail or take effect and lose their answer, and proves what whole sequences of such steps
keep.

## How to read it

| file | content |
|---|---|
| `Outcomes.dfy`, `Sequences.dfy` | call outcomes; filtering and searching lists, and the pigeonhole step |
| `Notification.dfy` | the NotificationConfiguration client, its loops, and its up-to-date check |
| `NotificationRuns.dfy` | non-interference, schedule independence, install and uninstall |
| `NotificationQuiescence.dfy` | which resources settle, and how often each one writes |
| `Ownership.dfy` | the claim protocol as one machine: exclusivity and non-adoption |
| `Bucket.dfy`, `BucketRuns.dfy` | the Bucket client, drift repair; its refinement of the machine, the life of the name |
| `Policy.dfy` | the Policy client, its convergence and its refinement of the machine |
| `PolicyNames.dfy` | the comma-joined policy list of a user |
| `User.dfy`, `UserRuns.dfy` | the User client; convergence through aborted Updates, its refinement of the machine |
| `ServiceAccount.dfy` | the ServiceAccount client; no runaway creation, clean release |

Each client is a class whose methods work step by step on a server object and, where the source
does, on the resource object. A method's postcondition equates the state it leaves with a function
of the state before; the theorems are about those functions. Every kind has a `ReconcileOnce` method
that drives its client as the managed reconciler does and ties the methods to the step function.

## Assumptions

- The managed reconciler is not part of the repository. A reconcile is taken to be: `Observe`, and
  nothing more on an error; for a resource being deleted, `Delete` if it exists and release of the
  finalizer otherwise; for a live one, `Create` if absent, `Update` if out of date. Controllers are
  set up without worker options, so reconciles of one kind come one at a time.
- The server stores what it is sent. Policies attached to a user keep their order, and attaching
  skips names that are already there. Policy names on the server are nonempty and free of commas.
- A call is served, never arrives, or takes effect and loses its answer (`Call`).
- `NewConfig` of the client library is not part of this model. The filter that it leaves on a new
  entry, as it reads back, is the parameter `blank`; statements hold for every value of it, and
  `RenderedUpToDateIff` says where it matters.
- Objects carry their maker (`Origin`, `mine`) as a label that no controller reads.
- Nobody but the controllers writes the claim annotations and the status names. Policy and user names are
  fixed, the latter by the admission webhook; a bucket can be renamed while its status is empty, which
  is what its webhook admits (`RenameAdmittedIff`), so renames are events of the Bucket runs.
- The statements that say "exactly" over whole runs (`RunExclusiveIff`, `RunRootedIff` and their
  instances) put no condition on outsiders, deletions or admitted renames.
- The claim theorems (`ClaimExclusivity`, `NonAdoption` and their instances) are about every moment of
  runs that start with claims exclusive and claimed objects there. They ask of the steps that outsiders
  remove no claimed object (`Protected`), that a claimed resource is renamed only to an object that is
  there and unclaimed (`Steady`, which holds of itself for policies and users), and that between a
  deletion that takes effect and the release of its resource no other resource of the same name has a
  turn (`Orderly`). `SplitDeletionRemovesRivalsBucket` is a run in which the last is not so.
- Non-adoption moreover asks that outsiders make and replace nothing under a claimed name
  (`Respected`), and for users that nobody else changes the user name in a connection secret.

## What the code does not promise

The model keeps the code's behaviour where it is weaker than a reader may expect, and states exactly
when the expected property holds.

- A notification `Create` whose read failed starts from an empty configuration and drops everyone
  else's entries (`ClobberIff`).
- A spec that repeats an event, or one without a filter when the library leaves one on new entries,
  is not up to date with the entry that is written for it, so once it is out of date it stays so and
  writes at every turn that succeeds (`RenderedUpToDateIff`, `StaleAfter`, `WritesExactly`). So does a
  resource whose bucket is missing.
- The event comparison accepts an entry that repeats one event in place of another
  (`RepeatedEntryEventAccepted`).
- A changed endpoint leaves the old entry behind (`EndpointChangeLeavesEntry`, `DeleteClearsArnIff`).
- Claims stay exclusive exactly until a `Create` completes and saves its claim while another resource
  claims the name (`BucketExclusiveIff`, `PolicyExclusiveIff`, `UserExclusiveIff`), or a claimed bucket
  that was not observed yet is renamed to one that another resource claims (`RenameExclusiveIff`,
  `EarlyRenameSharesClaim`); over whole runs `BucketRunExclusiveIff`, `PolicyRunExclusiveIff`,
  `UserRunExclusiveIff`.
- From a state in which claims are exclusive and on objects that are there and their holders' own, a
  reconcile takes over an object of somebody else exactly if its `Create` completes and saves its claim
  on one that appeared after the controller looked (`BucketRootedIff`, `PolicyRootedIff`, `UserRootedIff`): such a bucket is
  adopted, such a policy overwritten, and such a user's secret reset (`LateBucketIsAdopted`,
  `LatePolicyIsOverwritten`, `LateUserIsTakenOver`). An early rename takes over the object it names
  (`RenameRootedIff`, `EarlyRenameCarriesClaim`). Over whole runs and with no condition, `RunRootedIff`
  says which events do.
- An object that appears during a reconcile can be edited by a `Create` that then fails or whose answer
  is lost; `BucketSparesOthersIff`, `PolicySparesOthersIff` and `UserSparesOthersIff` say exactly when.
- A purge skips objects that it cannot list, and the bucket then stays (`DeleteRemovesIff`).
- An explicitly empty policy list, or one that repeats a name, never equals what the server reports
  (`EqualPoliciesIff`, `UserConverges`).
- Dropping the expiration from a service account's spec never takes effect
  (`DroppedExpirationNeverConverges`).
- The comment on `createS3Bucket` says that it sets the name in the status; the code does not, and
  the model follows the code: only `Observe` sets it (operator/bucket/create.go:53-71).

## Model

| member | source | states |
|---|---|---|
| `Notification.NotificationClient.FindWebhookConfiguration` | operator/notificationconfiguration/observe.go:63-79 | the search loop returns the first entry with the webhook's ARN and endpoint, or none |
| `Sequences.FirstIsEarliest` | operator/notificationconfiguration/observe.go:71-76 | what the search returns is the earliest match |
| `Sequences.FirstSound` | operator/notificationconfiguration/observe.go:71-78 | the search returns none exactly if nothing matches |
| `Notification.NotificationClient.IsConfigurationUpToDate` | operator/notificationconfiguration/observe.go:81-132 | the loops decide: same endpoint, as many events as the spec has distinct ones and only those, the same rules in order or no filter at all |
| `Notification.NotificationClient.Observe` | operator/notificationconfiguration/observe.go:16-61 | absent for a missing bucket or entry, an error for a failed read, otherwise whether the found entry is up to date |
| `Notification.NotificationClient.BuildLambda` | operator/notificationconfiguration/create.go:52-86 | appending events and rules one by one renders the spec |
| `Notification.NotificationClient.Create` | operator/notificationconfiguration/create.go:15-100 | the server after it: unchanged, with no write, if a matching entry is there, otherwise the list read, or an empty one if the read failed, with the rendered entry appended by one write |
| `Notification.NotificationClient.Update` | operator/notificationconfiguration/update.go:15-89 | the server after it: the list without the ARN's entries, in order, and the rendered entry at its end, by one write unless the read failed |
| `Notification.NotificationClient.Delete` | operator/notificationconfiguration/delete.go:16-64 | the server after it: the list without the entries of this ARN and endpoint, by one write unless the read failed; a missing bucket is no error |
| `Notification.ObserveAnswers` | operator/notificationconfiguration/observe.go:29-60 | Observe errs exactly on an unanswered read, is absent exactly if bucket, webhook or entry is missing, and otherwise judges the earliest entry by endpoint, events and the rules of the spec |
| `Notification.RenderedEntry` | operator/notificationconfiguration/create.go:52-86 | the written entry has the webhook's ARN and endpoint, the spec's events in order, and its rules as the filter |
| `Notification.CreateAnswers` | operator/notificationconfiguration/create.go:23-99 | exactly when Create completes, with which error it fails, when it writes, and what list the bucket then has |
| `Notification.RewriteAnswers` | operator/notificationconfiguration/update.go:23-88 | exactly when Update and Delete complete, and with which errors they fail |
| `Notification.RewriteEffects` | operator/notificationconfiguration/update.go:38-79 | an effective Update leaves exactly the rendered entry under the ARN, whatever endpoints it had, an effective Delete exactly the entries with other endpoints; every other entry, the bucket's other configuration and every other bucket stay |
| `Notification.UpdatedReplacesArn` | operator/notificationconfiguration/update.go:38-77 | Update drops every entry of the ARN, adds the rendered one, and keeps all others in order |
| `Notification.CreatedAddsEntry` | operator/notificationconfiguration/create.go:88 | Create adds its entry behind those of the ARN and of everybody else |
| `Notification.RenderedArn` | operator/notificationconfiguration/create.go:59-61 | the ARN that is stored prints as the text that every search expects |
| `Notification.ArnInjective` | operator/notificationconfiguration/update.go:39 | different webhook IDs have different ARN texts |
| `Notification.RenderedUpToDateIff` | operator/notificationconfiguration/observe.go:91-129 | Observe accepts what Create and Update write exactly if the spec repeats no event and either has rules or is written without a filter |
| `Notification.UpToDateExact` | operator/notificationconfiguration/observe.go:81-132 | for such specs, an entry is what Update would write up to the order of events exactly if it has no repeated event and is accepted (pigeonhole) |
| `Notification.DuplicateEventsNeverSettle` | operator/notificationconfiguration/observe.go:92-99 | a spec that repeats an event rejects every entry that lists its events |
| `Notification.RepeatedEntryEventAccepted` | operator/notificationconfiguration/observe.go:97-105 | an entry that repeats one event passes for a spec with two |
| `NotificationRuns.ReconcileOnce` | operator/notificationconfiguration/setup.go:37-46 | the client's methods driven by the reconciler are the step of the schedules below, and make as many calls of SetBucketNotification as `Puts` says |
| `NotificationRuns.NonInterference` | operator/notificationconfiguration/update.go:38-77 | for any schedule with changing specs, deletions and failing calls, the others' Creates after a failed read included: erasing one resource's ARN from the final server equals leaving out its steps and starting from the server without that ARN, if none of its own steps writes after a failed read |
| `NotificationRuns.ClobberIff` | operator/notificationconfiguration/create.go:33-38 | a step keeps everyone else's entries exactly unless it is a Create that writes after a failed read, or there was nothing to lose |
| `NotificationRuns.ScheduleIndependence` | operator/notificationconfiguration/create.go:40-88 | two interleavings of the same per-resource steps end, in every bucket, with the same multiset of entries and the same ordered entries for each ARN |
| `NotificationRuns.InstallUninstall` | operator/notificationconfiguration/delete.go:46-52 | over reconciles interleaved with anybody's: any careful ones of a resource with fixed ID and endpoint and changing events and filters, then a deletion that goes through, leave the server as if the resource had never been there, and it is reported absent |
| `NotificationRuns.UpdatesLeaveOneEntry` | operator/notificationconfiguration/update.go:38-77 | Create and any number of Updates add exactly the last rendered entry, and Delete gives back the original list in order |
| `Notification.DeletedLeavesOtherEndpoints` | operator/notificationconfiguration/delete.go:46-52 | after Delete the search finds nothing, other ARNs are untouched, and of this ARN exactly the entries with other endpoints remain |
| `NotificationRuns.DeleteClearsArnIff` | operator/notificationconfiguration/delete.go:46-52 | Delete clears the whole ARN exactly if all its entries point at the current endpoint |
| `NotificationRuns.UpdateStepReplacesArn` | operator/notificationconfiguration/update.go:38-79 | a reconcile that finds its entry out of date and gets its write through leaves exactly the rendered entry under the ARN and changes nothing else |
| `NotificationRuns.EndpointChangeLeavesEntry` | operator/notificationconfiguration/create.go:40-48 | create, move to another endpoint, delete: the first entry is still in the list |
| `NotificationQuiescence.TurnSettlesIff` | operator/notificationconfiguration/observe.go:37-60 | a turn of an unsettled resource whose reads are answered and whose write gets through settles it exactly if its bucket is there and its spec can be settled, whatever the list held |
| `NotificationQuiescence.TurnLeavesOthers` | operator/notificationconfiguration/update.go:38-46 | a careful step, deletions and failing calls included, does not change whether a resource with another bucket or ID is settled |
| `NotificationQuiescence.WriteIff` | operator/notificationconfiguration/observe.go:37-60 | a careful turn gets a SetBucketNotification call through exactly if it is effective and the resource was not settled |
| `NotificationQuiescence.StaleAfter` | operator/notificationconfiguration/observe.go:37-60 | after any schedule of careful turns, whichever calls fail, the unsettled resources are exactly those that were and had no effective turn, have no bucket, or have a spec that cannot be settled |
| `NotificationQuiescence.WritesExactly` | operator/notificationconfiguration/update.go:38-79 | over any such schedule the SetBucketNotification calls of a resource that get through number one, none, or one for each effective turn, according to whether it was unsettled, can be settled and had an effective turn |
| `NotificationQuiescence.CallsBounded` | operator/notificationconfiguration/update.go:77-85 | further SetBucketNotification calls are made only at turns whose write does not get through, and none by a settled resource |
| `NotificationQuiescence.EachWriteSettlesOne` | operator/notificationconfiguration/update.go:38-79 | each write that gets through for a resource that can be settled takes exactly it off the unsettled ones, whose number falls by one |
| `NotificationQuiescence.QuiescenceIff` | operator/notificationconfiguration/observe.go:37-60 | once all had an effective turn, among any careful ones, all are settled exactly if all unsettled ones could be, and then no further schedule, however its calls fare, changes the server or calls SetBucketNotification |
| `Ownership.ActsExclusiveIff` | operator/bucket/create.go:73-80 | a reconcile keeps claims exclusive exactly unless it gains a claim on a name that another resource claims |
| `Ownership.TouchesRootedIff` | operator/bucket/create.go:56-71 | a reconcile keeps claims on their holders' own objects exactly unless it gains a claim on an object that an outsider added meanwhile |
| `Ownership.RunExclusiveIff` | operator/bucket/create.go:73-80 | over whole runs, with no condition on deletions, outsiders or admitted renames: claims stay exclusive exactly as long as no Create completes while another resource claims the name and no claimed resource is renamed to a name that another one claims |
| `Ownership.RenameExclusiveIff` | operator/bucket/webhook.go:34-37 | a rename keeps claims exclusive exactly unless it takes a claim to a name that another resource claims |
| `Ownership.RenameRootedIff` | operator/bucket/webhook.go:34-37 | a rename keeps claims on their holders' own objects exactly unless it takes a claim to somebody else's object |
| `Ownership.RunRootedIff` | operator/bucket/observe.go:75-103 | over whole runs, with no condition: claims stay on their holders' own objects exactly as long as no outsider puts an object under a claimed name, no claimed resource is renamed to somebody else's object, and no reconcile claims a late object or makes one under a rival's name |
| `Ownership.ClaimExclusivity` | operator/bucket/observe.go:75-103 | from exclusive claims on objects that are there, at every moment at most one resource claims a name and only a leaving resource's claimed object is missing, whatever outsiders create, if they remove no claimed object, claims are renamed only to unclaimed objects, and rivals wait for a release |
| `Ownership.NonAdoption` | operator/bucket/observe.go:98-100 | in such runs claims stay on objects their holders made exactly as long as no Create completes on an object added during it and no claim is renamed to somebody else's; until then a reconcile changes or removes nobody else's object, those added during it included, exactly unless it edits one of the latter |
| `BucketController.BucketClient.Observe` | operator/bucket/observe.go:46-103 | status, errors and drift as the checks find them, the policy before the tags |
| `BucketController.BucketClient.CreateS3Bucket` | operator/bucket/create.go:56-71 | makes the bucket, and tolerates a failure if the bucket turns out to be there |
| `BucketController.BucketClient.Create` | operator/bucket/create.go:15-51 | the server and the claim after each point at which it can stop; the claim only at the end |
| `BucketController.BucketClient.Update` | operator/bucket/update.go:13-46 | policy, then tags, stopping at the first error; explicitly empty tags remove the tag set |
| `BucketController.BucketClient.Delete` | operator/bucket/delete.go:15-40 | empties the bucket of the objects that can be listed if the deletion policy says so, then removes the bucket that the status names |
| `BucketController.BucketNameIs` | apis/minio/v1beta1/bucket_types.go:104-109 | the name in the spec is the bucket name, otherwise the name of the resource is |
| `BucketController.ObserveAnswers` | operator/bucket/observe.go:60-103 | all answers of Observe, failed reads included: up to date exactly if claimed, there, and policy and tags are as the spec says, an explicitly empty map asking for no tags |
| `BucketController.CreateAnswers` | operator/bucket/create.go:30-71 | exactly when Create completes and claims, and what the bucket is like wherever it stops |
| `BucketController.UpdateAnswers` | operator/bucket/update.go:22-45 | exactly when Update completes, and what policy and tags the bucket has wherever it stops |
| `BucketController.DeleteAnswers` | operator/bucket/delete.go:26-39 | exactly when Delete completes, when the bucket is gone, and when it stays without its listed objects |
| `BucketController.DriftRepair` | operator/bucket/update.go:22-45 | after any aborted Updates and one whose calls are answered Observe reports up to date, empty tags are gone, and nothing the spec leaves out and no other bucket changed |
| `BucketController.UpdateNeededIff` | operator/bucket/observe.go:80-97 | a completed Update changes nothing exactly if Observe finds no drift, but for empty tags that it turns into none |
| `BucketController.CreateSettles` | operator/bucket/create.go:31-50 | a completed Create is reported up to date, also on a bucket it found there |
| `BucketController.DeleteRemovesIff` | operator/bucket/delete.go:26-36 | served deletion removes the bucket exactly if it is empty, or is to be emptied and all its objects can be listed, and otherwise changes nothing |
| `BucketRuns.ReconcileOnce` | operator/bucket/setup.go:37-46 | the client's methods driven by the reconciler, outsiders making buckets after Observe, are the turn of the machine below |
| `BucketRuns.BucketActs` | operator/bucket/observe.go:75-103 | a Bucket reconcile is a step of the claim protocol, whatever fails, is not saved, or appears meanwhile |
| `BucketRuns.BucketTouches` | operator/bucket/create.go:56-80 | it changes only the claimed bucket, and besides what outsiders add makes only its own |
| `BucketRuns.BucketExclusiveIff` | operator/bucket/create.go:30-51 | a reconcile keeps claims exclusive exactly unless its Create runs to the end and is saved while another resource claims the name |
| `BucketRuns.BucketRootedIff` | operator/bucket/create.go:56-71 | it keeps claims on their holders' own buckets exactly unless its Create runs to the end and is saved on a bucket an outsider made after Observe |
| `BucketRuns.BucketSparesOthersIff` | operator/bucket/create.go:30-71 | it changes or removes nobody else's bucket, exactly unless it finds one that an outsider made after Observe and sets another policy or other tags on it, whether or not Create then completes |
| `BucketRuns.ResourceAfter` | operator/bucket/observe.go:76-77 | what a reconcile leaves of the resource: the claim of a completed Create, the observed name in the status, if saved |
| `BucketRuns.ServedReconcileSettles` | operator/bucket/observe.go:75-103 | a served reconcile of a live resource ends up to date exactly unless somebody else's bucket has the name, and writes nothing where nothing drifted |
| `BucketRuns.LateOutcome` | operator/bucket/create.go:30-71 | a bucket made by others during a reconcile stays, and is changed exactly if the guards on the calls say so |
| `BucketRuns.BucketRunExclusiveIff` | operator/bucket/create.go:73-80 | over whole runs, with deletions split from releases and early renames: claims stay exclusive exactly as long as no Create completes while another resource claims the name and no claimed resource is renamed to a name that another one claims |
| `BucketRuns.BucketRunRootedIff` | operator/bucket/observe.go:75-103 | over the same runs: exactly which events take a claim to a bucket that its resource did not make |
| `BucketRuns.BucketClaimsExclusive` | operator/bucket/create.go:56-80 | at every moment at most one Bucket resource claims a bucket name and claimed buckets are there but for those of leaving resources, even if outsiders create them between Observe and Create, if claims are renamed only to unclaimed buckets |
| `BucketRuns.BucketsNotAdopted` | operator/bucket/observe.go:76-102 | claims stay on buckets their resources made exactly as long as no Create completes on a late bucket and no claim is renamed to somebody else's; until then a reconcile rewrites, retags or removes nobody else's bucket, exactly unless it edits a late one |
| `BucketRuns.DeleteThenReleaseStaysGuarded` | operator/bucket/delete.go:88-92 | deletion followed at once by release removes bucket and resource together and leaves no claim without its bucket |
| `BucketRuns.SplitDeletionRemovesRivalsBucket` | operator/bucket/delete.go:33-39 | a rival that claims the name between deletion and release loses its bucket to the first resource |
| `BucketRuns.LateBucketIsAdopted` | operator/bucket/create.go:60-65 | an outsider's bucket made between Observe and Create is claimed |
| `BucketRuns.NameFrozenOnceObserved` | operator/bucket/webhook.go:31-47 | through all admitted edits and lost status writes the status is empty or the effective name, and once set, name, region and status stay |
| `BucketRuns.DeleteRemovesObservedName` | operator/bucket/delete.go:88-92 | a deletion changes only the bucket that the same reconcile saw as there and claimed, whatever outsiders make meanwhile |
| `BucketRuns.RenameAdmittedIff` | operator/bucket/webhook.go:34-37 | an edit to another name is admitted exactly while the status is empty, which is when the runs take a rename |
| `BucketRuns.EditAdmittedIff` | operator/bucket/webhook.go:31-47 | with a provider, an edit is admitted exactly if the bucket was not observed yet or name and region stay |
| `BucketRuns.EarlyRenameSharesClaim` | operator/bucket/webhook.go:34-37 | a claimed resource with an empty status can be renamed to a bucket that another one claims, and then both do |
| `BucketRuns.EarlyRenameCarriesClaim` | operator/bucket/observe.go:76-77 | a claimed resource with an empty status can be renamed to, and then delete, a bucket it never made |
| `PolicyController.PolicyClient.Observe` | operator/policy/observer.go:15-73 | absent without the claim or the policy; otherwise both forms of the spec are compared with the stored document by what they parse to |
| `PolicyController.PolicyClient.Create` | operator/policy/create.go:25-82 | refuses an existing policy; writes the bucket form first, and claims when the write succeeded |
| `PolicyController.PolicyClient.Update` | operator/policy/update.go:14-45 | refuses a missing policy, otherwise writes as Create does |
| `PolicyController.PolicyClient.Delete` | operator/policy/delete.go:14-26 | removes the policy of the resource's name |
| `PolicyController.ObserveAnswers` | operator/policy/observer.go:25-72 | all answers of Observe: invalid if a given form cannot be compared, the bucket form first, out of date exactly if a given form parses to something else than the stored document, up to date otherwise |
| `PolicyController.CreateAnswers` | operator/policy/create.go:35-82 | exactly when Create completes and claims, when it writes, and which document |
| `PolicyController.UpdateAnswers` | operator/policy/update.go:24-45 | exactly when Update completes, when it writes, and which document |
| `PolicyController.DeleteAnswers` | operator/policy/delete.go:14-26 | Delete removes the policy exactly if the call takes effect, and no other |
| `PolicyController.UpdateConvergesIff` | operator/policy/update.go:34-44 | after a completed Update Observe reports up to date exactly unless both forms are given and differ |
| `PolicyController.CreateConvergesIff` | operator/policy/create.go:40-52 | the same after Create, which makes a policy where there was none and touches no other |
| `PolicyController.ReconcileOnce` | operator/policy/setup.go:37-46 | the client's methods driven by the reconciler, outsiders adding policies after Observe or after Create's check, are the turn of the machine below |
| `PolicyController.PolicyActs` | operator/policy/create.go:35-42 | a Policy reconcile is a step of the claim protocol, even if the policy appears between the check and the write |
| `PolicyController.PolicyTouches` | operator/policy/observer.go:25-40 | it changes only the claimed policy, and besides what outsiders add makes only its own |
| `PolicyController.PolicyExclusiveIff` | operator/policy/create.go:25-52 | a reconcile keeps claims exclusive exactly unless its Create runs to the end and is saved while another resource claims the name |
| `PolicyController.PolicyRootedIff` | operator/policy/create.go:35-52 | it keeps claims on their holders' own policies exactly unless its Create runs to the end and is saved on a policy an outsider added after the check |
| `PolicyController.PolicySparesOthersIff` | operator/policy/create.go:54-80 | it changes or removes nobody else's policy, exactly unless its write takes effect on one that an outsider added after the check, answered or not |
| `PolicyController.ServedReconcileSettles` | operator/policy/observer.go:25-72 | a served reconcile of a live resource with one form that parses ends up to date exactly unless somebody else's policy has the name, and writes nothing where nothing drifted |
| `PolicyController.ResourceAfter` | operator/policy/create.go:121-125 | a reconcile changes nothing of the resource but the claim, which a completed and saved Create gains |
| `PolicyController.OutcomeForeseen` | operator/policy/create.go:35-80 | the guards on state and calls tell whether the resource is released, its policy made, and a late policy overwritten |
| `PolicyController.PolicyRunExclusiveIff` | operator/policy/create.go:121-125 | over whole runs, with deletions split from releases: claims stay exclusive exactly as long as no Create completes while another resource claims the name |
| `PolicyController.PolicyRunRootedIff` | operator/policy/create.go:121-125 | over whole runs with no condition: exactly which events take a claim to a policy that its resource did not make |
| `PolicyController.PolicyClaimsExclusive` | operator/policy/create.go:121-125 | at every moment at most one Policy resource claims a policy name and claimed policies are there but for those of leaving resources |
| `PolicyController.PoliciesNotAdopted` | operator/policy/create.go:40-42 | claims stay on policies their resources made exactly as long as no Create completes on a late policy; until then a reconcile rewrites or removes nobody else's policy, exactly unless it overwrites a late one |
| `PolicyController.DeleteThenReleaseStaysGuarded` | operator/policy/delete.go:14-26 | deletion followed at once by release leaves no claim without its policy |
| `PolicyController.LatePolicyIsOverwritten` | operator/policy/create.go:72-76 | a policy added between the check and the write is overwritten |
| `PolicyNames.SplitOfJoin` | operator/user/update.go:31 | splitting undoes joining for nonempty lists of comma-free names |
| `PolicyNames.JoinOfSplit` | operator/user/observe.go:102 | joining undoes splitting for every string |
| `PolicyNames.EqualPoliciesIff` | operator/user/observe.go:100-111 | for every stored string and every list, nil and empty included, when the comparison accepts |
| `PolicyNames.DecodeOfJoin` | operator/user/update.go:31-35 | Update reads back the list that was stored, the empty one included |
| `PolicyNames.DecodeAnyString` | operator/user/update.go:31-35 | a stored string is read as no policies exactly if it is empty or begins with a comma, and otherwise as the names that it joins |
| `UserController.UserClient.Observe` | operator/user/observe.go:25-98 | the gate on claim or status, the clearing of the status of a missing user, the policy comparison and the credential check |
| `UserController.UserClient.Create` | operator/user/create.go:22-68 | refuses an existing user; adds it, attaches policies, and only then claims and publishes |
| `UserController.UserClient.SetUserPolicies` | operator/user/create.go:88-102 | attaches the wanted policies, and makes no call for none |
| `UserController.UserClient.Update` | operator/user/update.go:17-73 | detaches what the stored string decodes to, attaches what is wanted, resets the secret, stopping at the first error |
| `UserController.UserClient.Delete` | operator/user/delete.go:14-32 | removes the user of the resource's name |
| `UserRuns.ObserveAnswers` | operator/user/observe.go:33-97 | all answers of Observe, and the status it leaves: cleared exactly for a user that is gone |
| `UserRuns.CreateAnswers` | operator/user/create.go:37-67 | exactly when Create completes, what user it leaves wherever it stops, and the claim and connection secret at its end |
| `UserRuns.UpdateCompletesIff` | operator/user/update.go:26-71 | Update completes exactly if the calls it needs are answered: detaching if anything is attached, attaching if anything is wanted, the secret for a live resource |
| `UserRuns.UpdateLeavesPolicies` | operator/user/update.go:31-51 | what policies an Update leaves wherever it stops |
| `UserRuns.UpdateLeavesSecrets` | operator/user/update.go:53-71 | it makes or resets exactly the user of the connection secret, exactly if it gets there, and no other user's secret changes |
| `UserRuns.DeleteAnswers` | operator/user/delete.go:24-31 | Delete removes the user exactly if the call takes effect, and no other |
| `UserRuns.UpdateKeepsNames` | operator/user/update.go:26-51 | an Update, aborted anywhere or not, keeps the user, well-formed names, and every other user's policies |
| `UserRuns.UserConverges` | operator/user/update.go:26-71 | after any aborted Updates and one whose calls are answered, Update has completed and the user has exactly the wanted policies and its secret; Observe accepts exactly unless the list is explicitly empty or repeats a name |
| `UserRuns.ObserveUpToDateIff` | operator/user/observe.go:33-97 | up to date exactly if the resource holds the user, its policies are the spec's in order, nil for none, and its secret works or it is being deleted |
| `UserRuns.AddMissingExactIff` | operator/user/create.go:94-99 | attaching to a user without policies stores the list as given exactly if no name repeats |
| `UserRuns.CreateConvergesIff` | operator/user/create.go:46-67 | a completed Create makes exactly the wanted user and is accepted under the same condition |
| `UserRuns.ReconcileOnce` | operator/user/setup.go:37-46 | the client's methods driven by the reconciler, outsiders adding users after Observe or after Create's check, are the turn of the machine below |
| `UserRuns.UserActs` | operator/user/create.go:37-60 | a User reconcile is a step of the claim protocol, and a name in the status stays backed by the claim |
| `UserRuns.UserTouches` | operator/user/observe.go:33-52 | with its own secret, it changes only the claimed user, and besides what outsiders add makes only its own |
| `UserRuns.UserExclusiveIff` | operator/user/create.go:37-60 | a reconcile keeps claims exclusive exactly unless its Create runs to the end and is saved while another resource claims the name |
| `UserRuns.UserRootedIff` | operator/user/create.go:37-60 | it keeps claims on their holders' own users exactly unless its Create runs to the end and is saved on a user an outsider added after the check |
| `UserRuns.UserSparesOthersIff` | operator/user/create.go:46-53 | it changes or removes nobody else's user, exactly unless it resets the secret of one that an outsider added after the check or attaches policies to it, whether or not Create then completes |
| `UserRuns.ResourceAfter` | operator/user/create.go:56-67 | what a reconcile leaves of claim, status and connection secret |
| `UserRuns.ServedReconcileSettles` | operator/user/observe.go:33-97 | a served reconcile of a live resource ends up to date exactly if it was or the name is free or claimed and the list is neither explicitly empty nor repeating |
| `UserRuns.LateOutcome` | operator/user/create.go:37-53 | a user added by others during a reconcile stays, and is changed exactly if the guards on the calls say so |
| `UserRuns.UserRunExclusiveIff` | operator/user/create.go:37-60 | over whole runs, with deletions split from releases: claims stay exclusive exactly as long as no Create completes while another resource claims the name |
| `UserRuns.UserRunRootedIff` | operator/user/create.go:37-60 | over whole runs: exactly which events take a claim to a user that its resource did not make |
| `UserRuns.LateUserIsTakenOver` | operator/user/create.go:46-60 | whenever Create completes, a user added between the check and the write has its secret reset, gets the wanted policies too, and is claimed |
| `UserRuns.UserClaimsExclusive` | operator/user/create.go:37-60 | at every moment at most one User resource claims a user name and claimed users are there but for those of leaving resources |
| `UserRuns.UsersNotAdopted` | operator/user/create.go:37-44 | if secrets hold the published name: claims stay on users their resources made exactly as long as no Create completes on a late user; until then a reconcile changes or removes nobody else's user, exactly unless it edits a late one |
| `UserRuns.DeleteThenReleaseStaysGuarded` | operator/user/delete.go:24-31 | deletion followed at once by release leaves no claim without its user |
| `ServiceAccountController.ServiceAccountClient.IsUpToDate` | operator/serviceaccount/observe.go:98-120 | a set policy must be the account's, and the expirations must be equal or both missing |
| `ServiceAccountController.ServiceAccountClient.Observe` | operator/serviceaccount/observe.go:24-95 | lookup by the external name only; not found is absent, any other error is passed on |
| `ServiceAccountController.ServiceAccountClient.ServiceAccountExists` | operator/serviceaccount/create.go:108-120 | tells not found from a failed lookup |
| `ServiceAccountController.ServiceAccountClient.Create` | operator/serviceaccount/create.go:25-106 | the key rules, the existence guard for a requested key, and the external name set to the key the server answered with |
| `ServiceAccountController.ServiceAccountClient.Update` | operator/serviceaccount/update.go:17-69 | sends only the fields that the spec sets |
| `ServiceAccountController.ServiceAccountClient.Delete` | operator/serviceaccount/delete.go:14-54 | no-op without external name, for a missing account, and when the lookup fails; otherwise removes the account |
| `ServiceAccountController.ObserveAnswers` | operator/serviceaccount/observe.go:35-95 | all answers of Observe: up to date exactly if a set policy and the expiration are those of the account |
| `ServiceAccountController.CreateAnswers` | operator/serviceaccount/create.go:34-98 | exactly when Create completes, and the account it makes: for the target user, under the given or generated key, with the spec's name, description, policy, expiration and secret, or a generated password for a key without one |
| `ServiceAccountController.UpdateAnswers` | operator/serviceaccount/update.go:27-68 | exactly when Update completes, and field by field what it writes |
| `ServiceAccountController.DeleteAnswers` | operator/serviceaccount/delete.go:31-51 | exactly when Delete completes and when the account is gone |
| `ServiceAccountController.UpdateConvergesIff` | operator/serviceaccount/observe.go:97-120 | after a completed Update Observe reports up to date exactly if the spec sets an expiration or the account had none |
| `ServiceAccountController.DroppedExpirationNeverConverges` | operator/serviceaccount/update.go:50-53 | without an expiration in the spec an account's expiration stays and keeps it out of date through any number of Updates |
| `ServiceAccountController.UpdateWritesSetFields` | operator/serviceaccount/update.go:32-63 | over any tries, wherever they fail: fields the spec leaves empty never change, the set ones are in place once one try took effect, and no other account changes |
| `ServiceAccountController.CreateSettles` | operator/serviceaccount/create.go:55-98 | a completed Create adds one account under a free key, the requested one if given, and it is up to date |
| `ServiceAccountController.ReconcileOnce` | operator/serviceaccount/setup.go:37-46 | the client's methods driven by the reconciler are the step of the state machine below |
| `ServiceAccountController.ServedReconcileSettles` | operator/serviceaccount/observe.go:35-95 | a served reconcile of a live resource ends with an account that agrees with the spec exactly unless the spec drops an expiration, makes one only if none is named, and writes nothing if it agrees |
| `ServiceAccountController.NoRunaway` | operator/serviceaccount/create.go:74-98 | under any lost writes, removals and errors, the live accounts a resource made number at most one plus the keys lost, and all but the one its annotation names are lost ones |
| `ServiceAccountController.CleanRelease` | operator/serviceaccount/delete.go:31-51 | when the finalizer is released no account the resource made is alive but lost ones, so none if nothing was lost |
| `ServiceAccountController.DeletionCompletes` | operator/serviceaccount/delete.go:31-51 | a served deletion removes the account and the next reconcile releases; a failed lookup reports success and changes nothing |
| `ServiceAccountController.LostWriteAddsOne` | operator/serviceaccount/observe.go:35-39 | as long as the annotation is empty, each lost annotation write leaves one more account |
| `ServiceAccountController.BoundIsReached` | operator/serviceaccount/create.go:74-98 | for every n there is a run with n losses and n + 1 live accounts |
| `ServiceAccountController.PinnedKeyNeverRunsAway` | operator/serviceaccount/create.go:74-83 | with a fixed access key there is at most one account, however much is lost |

## Left out

- HTTP, TLS, client construction, connectors, manager setup, RBAC, tracing, events, logging and conditions: no property spans them; only the single-worker setup is used.
- internal/controller/user/user.go and the disabled notification controller: they are not wired in by operator/operator.go.
- Status fields that are only displayed (notification, policy, service account and the user's policies and state): nothing reads them back.
- Bucket regions at creation, single objects and object locks: emptying a bucket is one call that may fail or take effect, on all objects or on those that can be listed.
- The live credential check and password generation of users: their outcomes are parameters.
- JSON and IAM policy parsing: a parser is a parameter, and documents are compared by what they parse to.
- Error texts: the classified outcome is modelled.
- Generated code, CRDs, the S3 event list and the other webhook checks: they would only add easy members.
- A user that is enabled or disabled, and its account status: the policy and secret are modelled, the flag is not.
- A nil annotations map in the Policy and User `Create`: the managed reconciler annotates a resource before it calls `Create`.
- Liveness after a partly failed `Create` of a bucket, policy or user: the object stays unclaimed, and the source has no way to take it back.
- NotificationRuns.NonInterference: does not cover a Create of the resource that is left out which writes after a failed read, because that write can drop the others' entries; `ClobberIff` says exactly when.
- NotificationQuiescence.StaleAfter: does not cover turns that write after a failed read, for the same reason.
- Removal of remote objects by outsiders in the middle of a reconcile: they remove between reconciles, and add at any time.
