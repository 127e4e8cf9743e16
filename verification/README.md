# Verified model of the AWS machine driver

The driver launches, initialises, inspects, deletes and lists EC2 instances for machine objects. It keeps no
state between calls: tags, instance states, provider ids and interface attributes are all it knows. This project
models its operations over an explicit EC2 world and proves what whole histories of calls guarantee when any API
call may fail, also after it took effect: which launched instances the lookups find, when duplicates are detected
and removed, and that retried initialisation never over-assigns and exactly when it converges.

## How the model is built

- `Ec2` is the world: instances, interfaces, every id ever issued, and a log of the mutating calls. `script` holds
  the outcome of each coming API call (accepted, accepted with an empty answer, refused, or carried out with the
  answer lost); `births` holds the identities EC2 will hand out. Both are arbitrary, so a statement about all
  worlds is a statement about every behaviour of the API. `Ec2.Client` is the object the driver calls.
- `DriverSpec` gives each driver operation as a function from world to world and answer; `Paginators` and
  `Drivers` hold the loops and branches of the source and are proved to compute these functions.
- `Effects`, `Launches`, `Histories`, `Marks`, `Orphans`, `Deletion`, `Multiplicity`, `SourceDestChecks`, `Prefixes`,
  `Initialization`, `InitializationRuns`, `StuckInstances`, `Convergence` and `NicCorrespondence` prove what the
  operations guarantee. A history is any sequence of driver calls, for any machines and classes, between which EC2
  moves instances through their states and forgets them (`Histories.Op`). Each exact condition that the next
  section gives for something to go wrong comes with a lemma that shows one input; `Samples` holds what they share.
- `Scopes`, `Statuses`, `EfaInterfaces` and `Answers` say in plain terms, without the functions the operations are
  made of, which instances the operations concern, when the status objects, which interfaces are called for, and
  which error code each case ends in.
- `Tags`, `BlockDevices`, `ProviderId`, `VolumeId`, `Paging` and `MockClients` stand beside the driver's other files.
- Go ranges over a map in an arbitrary order. The order is a parameter wherever the source ranges over tags, one
  for each loop, and every result holds for all of them. Where two calls look up by tags, their orders may differ:
  then the results ask that what carries the machine's name was launched for it (`Marks.OrdersAgree`), because
  foreign instances under the name could bear one of two cluster keys and not the other.
- A server that repeats a page token ends the lookup there, without an error. `DriverSpec.Reached` is the number of
  matching instances a lookup gets to see: all n of them, unless the page size p is positive, the token repeats at
  page k and k*p < n; then k*p. No result about an operation of the driver excludes such servers.
- Go's `int32` conversions and differences are written out (`Wrappers.ToInt32`).
- EC2 filters hold together, and a filter matches one of its values exactly. Terminating moves an instance out of
  the four listed states. EFA interfaces refuse the source/destination change; prefix requests must be positive.
- `mirror` says whether an instance's own SourceDestCheck follows its primary interface. The source does not say,
  so both worlds are covered.

## What the proofs found

- Initialisation is gated by the instance's own SourceDestCheck, the status reads the interfaces
  (`InitializationRuns.StatusAfterInitialize` gives the exact condition under which they disagree). Where the flag
  follows the primary interface, one call that fails on a secondary interface leaves the machine Uninitialized for
  good: `StuckInstances.PartialFailureSticks` says exactly when one call does this, `RunStuckIff` that nothing else
  in a history does and nothing repairs it, `StuckInVain` that every later initialisation may succeed while every
  status still answers Uninitialized, and `StuckHappens` gives one history from an empty world.
- So retried initialisation converges exactly where no such split outcome occurred: `Convergence.RetriesConvergeIff`,
  for every world; instances with one interface never split, nor does any where flags do not follow interfaces
  (`NoContradiction`).
- Prefix counts are not validated. A negative count for an interface without prefixes makes every initialisation
  fail, whatever the API answers: the request it leads to is impossible (`Convergence.NegativeCountFails`,
  once in `NegativeCountHappens`).
- InitializeMachine does not check the provider of the class, unlike the other operations.
- The lookup never answers NotFound, so the NotFound branch of DeleteMachine (pkg/aws/core.go:461-464) is dead.
- A deletion can succeed with instances of the machine left in exactly three ways (`Deletion.DeleteEmptiesIff`): a
  provider id names one of them and only that one is terminated, a repeated page token keeps the lookup from reaching
  every match, or a terminate call is refused with "not found", which counts as done. `LeftByProviderID`,
  `LeftByRepeatedToken` and `LeftByDisowning` show each. ListMachines, too, can succeed without an instance it should
  show, if the server repeats a token (`Orphans.OrphanSafety`, `ListMisses`).
- A provider id reported by CreateMachine leads back to the launched instance exactly when EC2's id has no slash
  (`Multiplicity.ReportedIDLeadsBackIff`; `SlashedIsMissed` is a deletion that succeeds without touching it).
- The lookup by provider id does not look at the state, so a terminated instance is still reported until EC2
  forgets it (`Multiplicity.StatusByProviderIDIgnoresState`).
- The documentation promises volume ids of the form `vol-...`; the code returns any id without the `aws://` prefix
  unchecked. The model follows the code (`VolumeId.ResultIsEbsVolumeIff`, `BareIDIsUnchecked`).
- Interfaces with the same device index on different network cards are held against one spec, so some spec is
  matched by none; prefixes it asks for are never requested and never missed, in any history
  (`NicCorrespondence.SharedIndexHidesSpec`, with one launch in `SharedIndexHappens`).
- The mock's TerminateInstances, given two different known ids, brings the instances of each back while handling
  the other (`MockClients.RemovesNamedIff`, `BothComeBack`), and its generated ids can collide after a termination
  (`MockClients.NextIDCollidesIff`, `NextIDCollides`). The driver terminates one id at a time.

## Model

| member | source | states |
|---|---|---|
| Orphans.OrphanSafety | pkg/aws/core.go:269-316 | in every history, an instance some CreateMachine launched, whatever that call answered, and still in a listed state, matches the list lookup of its class; it is in the list exactly when the lookup reaches its position, always so if no page token is repeated, and then under exactly the name that launched it |
| Orphans.ConsistentWorldLists | pkg/aws/core.go:612-664 | in any world consistent with a record of launches, every recorded instance in a listed state matches, and is listed under its machine's name exactly when the lookup reaches it |
| Orphans.ListIsExact | pkg/aws/core.go:634-664 | the list has exactly one entry for each matching instance the paged lookup reaches, under its provider id and with its Name tag, and no other |
| Orphans.ListedIffReached | pkg/aws/core.go:634-664 | the j-th matching instance is on the list exactly when the lookup reaches more than j instances |
| Marks.MarkedPasses | pkg/aws/core_util.go:114-145 | whatever the tag orders at launch and at lookup, a launched instance in a listed state passes the filters of the machine lookup and of ListMachines |
| Marks.MatchingAnyOrder | pkg/aws/core_util.go:114-145 | two lookups that range over the tags differently match the same instances, in the same order, if what carries the machine's name was launched for it |
| Orphans.ListSucceeds | pkg/aws/core.go:574-672 | ListMachines succeeds for a valid AWS class when the remaining API calls are accepted |
| Scopes.ListedAreOwn | pkg/aws/core.go:599-664 | in every world and for every scan order, each entry of a list stands for an instance that carries a cluster key and a role key of the class and is neither shutting down nor terminated, under its provider id and with its first Name tag |
| Scopes.ListedIffOwn | pkg/aws/core.go:599-664 | with one key of each kind and no list cut short, exactly these instances are listed |
| Scopes.FoundBack | pkg/aws/core_util.go:108-166 | without a provider id, each instance the machine lookup finds carries such keys, is in such a state and has the machine's name |
| Scopes.FoundIffBacks | pkg/aws/core_util.go:108-166 | with one key of each kind and nothing cut short, a lookup that is answered finds exactly these, or NotFound if there are none |
| Scopes.DeleteSparesOthers | pkg/aws/core.go:457-477 | a deletion by tags changes no instance that does not carry the class's keys and the machine's name, in particular none of another cluster |
| Scopes.DeleteShutsDownBacking | pkg/aws/core.go:457-477 | with one key of each kind, nothing cut short and honest answers, success shuts down exactly the instances that carry them |
| Scopes.NameOfIsFirst | pkg/aws/core.go:650-658 | the name shown is the value of the first Name tag, or empty without one |
| Launches.UndisturbedCreateSucceeds | pkg/aws/core.go:67-326 | with every call accepted and image, annotation and a fresh instance at hand, CreateMachine succeeds and reports that instance's provider id and node name |
| Launches.SuccessIsRecorded | pkg/aws/core.go:269-325 | a successful creation launched an instance that is recorded for its class and machine name |
| Histories.RunStaysConsistent | pkg/aws/core.go:67-672 | every history keeps ids unique, interfaces owned by one instance, and every launched instance marked with the tags of its launcher |
| Effects.CreateEffect | pkg/aws/core.go:269-325 | a creation launches nothing and fails, or launches exactly one instance whether or not it then succeeds; success names that instance |
| Launches.CreateSendsOneRequest | pkg/aws/core.go:103-269 | a creation sends no launch request and fails without effect, or exactly one, with the class's image, tags and interfaces and every block device compiled with the image's root name |
| Launches.RequestedNamesDistinctIff | pkg/aws/core_util.go:226-261 | the device names in that request are distinct exactly when no other device of the class carries the image's root name |
| Launches.RequestedTags | pkg/aws/core_util.go:266-292 | the request puts the class's tags, with Name replaced by the machine name, on instance, volumes and interfaces |
| Launches.RequestedNics | pkg/aws/core.go:136-173 | it asks for one interface per spec, of its type, at its device index or else at its position |
| Launches.RequestedDevices | pkg/aws/core_util.go:218-264 | it asks for one volume per device with the device's settings, under its own name or the image's root name |
| Launches.CreateWaits | pkg/aws/core.go:288-320 | once launched, the creation succeeds exactly when one of the looks 0 to retries is accepted, reporting provider id and node name, takes no look after the first that is, and answers Internal after the last otherwise |
| Launches.AwaitGivesUp | pkg/aws/util.go:114-118 | without an accepted look, or for an id EC2 does not know, the wait makes all its looks and fails with the last error |
| Effects.DeleteEffect | pkg/aws/core.go:444-477 | a deletion changes nothing but the state of its targets: the instance of the provider id, or else the instances matching by name and tags |
| Effects.FetchAllReads | pkg/aws/core_util.go:147-165 | a lookup only reads, fails only with Internal, and on success shows exactly the matching instances it reaches, in order |
| Multiplicity.LookupFindsExactlyTheLaunched | pkg/aws/core_util.go:108-166 | in every history in which one class creates under a name that nothing bore before, the tag lookup matches exactly the launches under that name still in a listed state, in launch order, under every scan order |
| Multiplicity.UndisturbedLaunchesStay | pkg/aws/core_util.go:108-166 | if nobody deletes the machine's instances and EC2 keeps them in listed states, those are all its launches: no other call of any history removes one from the lookup |
| Multiplicity.StatusCounts | pkg/aws/core.go:509-520 | the status is OutOfRange exactly when several instances match (unless the server ends every lookup after one instance), names the first match otherwise, and is NotFound when none does and there is no provider id |
| Multiplicity.StatusDetectsMultiplicity | pkg/aws/core.go:509-520 | over histories the status is OutOfRange exactly when more than one launch of the machine is still in a listed state, unless the server ends every lookup after one instance |
| Multiplicity.DeleteRemovesEveryLaunch | pkg/aws/core.go:457-477 | over histories a successful deletion by tags, with honest answers, shuts down the launches still listed as far as its lookup reaches, and no other instance; if it reaches all, a second one under any order sends no call |
| Multiplicity.DeleteByIDRemovesOneLaunch | pkg/aws/core.go:444-455 | over histories a successful deletion by provider id, with honest answers, shuts down the instance named and no other, and leaves every other launch still listed |
| Multiplicity.ReportedIDLeadsBackIff | pkg/aws/core.go:276-320 | after a successful creation and any history around it, an honest successful deletion with the reported provider id shuts down exactly the launched instance, and leaves every other launch, if EC2's id has no slash, and leaves the instance alone if it has one |
| Multiplicity.StatusOfReported | pkg/aws/core_util.go:176-197 | with nothing found by tags, the status of a machine with the reported provider id is NotFound exactly when EC2 no longer knows the launched instance, and names it otherwise |
| Multiplicity.UnbackedMachine | pkg/aws/core.go:342-349 | without instances and provider id, deletion is done at once, the status is NotFound and initialisation answers Uninitialized |
| Multiplicity.StatusByProviderIDIgnoresState | pkg/aws/core_util.go:176-197 | with nothing found by tags, the status by provider id is NotFound exactly when EC2 no longer knows the instance, whatever its state |
| Deletion.DeleteExact | pkg/aws/core.go:459-477 | answer, calls sent and every instance's state after a deletion by tags: calls for the instances the lookup reached run up to the first failing one, each takes effect unless refused, no other instance changes |
| Deletion.DeleteByIDExact | pkg/aws/core.go:444-455 | a deletion by provider id sends one call, for the instance named; it fails exactly when that call fails with another error than "not found", shuts that instance down unless refused, and changes no other |
| Deletion.StillMatchingByID | pkg/aws/core.go:444-455 | after it everything that matched still matches, in order, but the instance named, which goes unless its call was refused |
| Deletion.SuccessByIDSendsOneCall | pkg/aws/core.go:444-455 | every deletion with a provider id that succeeds sent exactly one terminate call, for the part after the last slash |
| Deletion.UndecodableIsInvalid | pkg/aws/core.go:444-449 | an otherwise sound deletion answers InvalidArgument exactly when the provider id has no slash |
| Deletion.StillMatching | pkg/aws/core.go:468-476 | after a deletion a former match still matches exactly when the lookup did not reach it, its call was not sent or its call was refused |
| Deletion.DeleteEmptiesIff | pkg/aws/core_util.go:302-311 | a deletion that succeeds leaves no match exactly when, by tags, its lookup reached every match and no terminate call was refused with "not found", or, by provider id, nothing matched but the instance named and its call was not refused |
| Deletion.SecondDeleteIsIdle | pkg/aws/core.go:457-477 | with honest answers a successful deletion leaves no match exactly when its lookup reached them all, and repeating it then sends no terminate call, in whatever order either ranges over the tags |
| Deletion.DeleteProgress | pkg/aws/core.go:457-477 | no deletion adds a match, and there are fewer after it exactly when the termination of some match gets through: by tags, of any match the lookup reached, whatever became of the calls before it, or by provider id, of the instance named |
| Deletion.RetriesDrain | pkg/aws/core.go:457-477 | as many attempts as there are matches, each with its own tag order and each getting the termination of some match through while any is left, leave none, even if page tokens are repeated or other calls are refused with "not found" |
| InitializationRuns.StatusAfterInitialize | pkg/aws/core.go:351-391 | a successful initialisation is followed by a status, with its own tag order, with the same provider id and node name, without error exactly when the instance's own flag did not contradict its interfaces, else Uninitialized |
| InitializationRuns.NeverOverAssigned | pkg/aws/core.go:363-386 | across any history of partly failing initialisations of any machines and classes, an interface that starts within its prefix count, or is launched on the way, never exceeds it, if its owner is initialised by the same interface specs |
| InitializationRuns.RunPrefixesRise | pkg/aws/core.go:363-386 | prefix counts never fall in any history |
| InitializationRuns.NoRequestAfterSuccess | pkg/aws/core.go:374-385 | once an initialisation succeeded, no later call of the history, whatever other machines it initialises, requests prefixes for the instance's interfaces, as long as that instance goes by the same interface specs |
| StuckInstances.PartialFailureSticks | pkg/aws/core.go:354-361 | one InitializeMachine leaves flag and interface in contradiction exactly when the flag follows the primary interface, an attempt on the primary takes effect and none on the other does; it then answers Uninitialized |
| StuckInstances.RunStuckIff | pkg/aws/core.go:351-391 | over every history an instance is in that contradiction exactly when it was at the start or some initialisation of it had such an outcome: nothing else causes it and nothing repairs it |
| StuckInstances.StuckForever | pkg/aws/core.go:354-361 | an instance in that contradiction stays in it in every history as long as EC2 knows it |
| StuckInstances.StuckInVain | pkg/aws/core.go:351-391 | after any history, for every class that wants the checks off, GetMachineStatus of such an instance answers the instance with Uninitialized, while InitializeMachine with accepted calls succeeds exactly when its prefix requests are possible, and repairs nothing |
| Convergence.InitializeSucceedsIff | pkg/aws/core.go:331-392 | with calls accepted InitializeMachine succeeds exactly when the class is valid, the instance can be found, it has interfaces if checks are to be switched off, and each prefix request due is positive |
| Convergence.FirstSuccessSufficesIff | pkg/aws/core.go:351-391 | in every world, the first initialisation that succeeds after any history leaves nothing to initialise, except exactly where checks are to be off and a contradiction was there or came about by a split outcome |
| Convergence.RetriesConvergeIff | pkg/aws/core.go:351-391 | in every world, for an instance with interfaces that started within its counts, of a class without negative counts: after any history of failures in which only its class initialises it, the next initialisation with accepted calls succeeds, and leaves nothing to initialise exactly if checks are not to be off or no contradiction was there or came about |
| Convergence.NoContradiction | pkg/aws/core.go:351-391 | no contradiction comes about for instances with one interface, nor where flags do not follow interfaces |
| Convergence.SuccessNeedsRequestable | pkg/aws/core.go:363-386 | whatever the API answers, an initialisation succeeds only if each prefix request due is positive |
| Convergence.NegativeCountFails | pkg/aws/core.go:374-378 | a negative prefix count due on an interface without prefixes makes the initialisation fail, whatever the API answers |
| Initialization.ReadyIff | pkg/aws/core.go:354-391 | after a successful initialisation the status check still objects exactly when checks are to be off, the instance's own flag was off and a non-EFA interface had its check on |
| Initialization.DisablingIsBestEffort | pkg/aws/core_util.go:66-106 | every non-EFA interface is called for whatever the outcomes, success means every call succeeded, and then none has the check on |
| EfaInterfaces.InitializeCallsIff | pkg/aws/core_util.go:66-106 | an initialisation calls for an interface exactly when checks are to be off, the instance's own flag is not off, the instance is described, and the interface is its own and of neither type efa nor efa-only |
| EfaInterfaces.DisablingComesFirst | pkg/aws/core.go:351-391 | if switching the checks off fails the call answers Uninitialized and requests no prefixes; otherwise it requests them and succeeds exactly when none fails |
| Statuses.StatusExact | pkg/aws/core.go:519-571 | for one found instance the status is its provider id and node name, without error exactly when every interface attached inside the spec list shows the prefix count its spec names and, if checks are to be off, none but EFA interfaces has its check on; else Uninitialized |
| Statuses.StatusIgnoresEfaChecks | pkg/aws/core.go:530-548 | the check of an efa or efa-only interface makes no difference to the status |
| SourceDestChecks.EveryCheckIsAttempted | pkg/aws/core_util.go:84-105 | the calls sent are exactly those for the non-EFA interfaces, in order, regardless of earlier failures |
| SourceDestChecks.OkIffEveryAttemptSucceeds | pkg/aws/core_util.go:84-105 | the loop reports no error exactly when every attempt succeeds |
| SourceDestChecks.ExactlyTheHitAreOff | pkg/aws/core_util.go:84-105 | exactly the interfaces on which an attempt took effect end with the check off, all others are unchanged |
| SourceDestChecks.EfaIsLeftAlone | pkg/aws/core_util.go:86-89 | interfaces of type efa or efa-only are never called for and never change |
| SourceDestChecks.FlagFallsIff | pkg/aws/core_util.go:84-105 | the instance's own flag ends off exactly when it was off, or follows a primary interface on which an attempt took effect |
| Prefixes.DifferenceMeetsCount | pkg/aws/core.go:374-378 | asking for the 32-bit difference meets the 32-bit count, also where the arithmetic wraps |
| Prefixes.AssignAllMeets | pkg/aws/core.go:363-386 | a run without error leaves every interface of the instance at its count |
| Prefixes.AssignAllKeepsWithin | pkg/aws/core.go:363-386 | a run, failed or not, takes no interface that is within its count beyond it |
| Prefixes.AssignAllOkIff | pkg/aws/core.go:363-386 | with calls accepted, a run succeeds exactly when each request due asks for a positive number of prefixes |
| Prefixes.AssignAllCalls | pkg/aws/core.go:363-386 | whatever the answers, the requests sent are those due, in order, up to and including the first that fails, and the run is without error exactly if none does |
| Prefixes.WithinRequestableIff | pkg/aws/core.go:374-378 | for interfaces within their counts, the requests due are positive exactly when none stems from a negative count |
| NicCorrespondence.MatchedBackIff | pkg/aws/core.go:138-170 | the interface launched from a spec is matched back to it exactly when the spec names no device index or its own position |
| NicCorrespondence.AllMatchedBackIff | pkg/aws/core.go:551-560 | both lookups find every interface's own spec exactly when all specs are in place |
| NicCorrespondence.EverySpecMatchedIff | pkg/aws/core.go:138-170 | after a launch each spec is matched by some interface exactly when the device indices asked for are a permutation of the positions |
| NicCorrespondence.SharedIndexHidesSpec | pkg/aws/core.go:363-374 | otherwise, after any history, some spec is matched by no interface, and whatever prefixes it asks for change neither the requests of an initialisation nor the status |
| Paginators.GetInstances | pkg/aws/core_util.go:147-165 | the paging loop ends, stays within slice bounds, and returns what the unpaged lookup specifies, in PageCount pages |
| Paginators.Paginator.NextPage | pkg/aws/core_util.go:154-158 | each page continues the list of matching instances where the previous page ended, and a failing page fails the lookup |
| Paginators.PagingRefinesList | pkg/aws/core_util.go:147-165 | for every page size the lookup returns exactly the unpaged list, in max(1, ceil(n/p)) pages, unless a page fails |
| Paginators.DuplicateTokenStops | pkg/mockclient/mockclient.go:224-246 | a token repeated at page k ends the lookup within k pages with exactly the first min(n, k*p) instances |
| Paging.ServeNext | pkg/mockclient/mockclient.go:215-246 | the token of every turn of the loop yields a page within bounds that continues the list, and leaves the expected next token |
| Paging.PageCountIsCeiling | pkg/mockclient/mockclient.go:231-239 | the number of pages is max(1, ceil(m/p)) |
| Decimal.TokenRoundTrip | pkg/mockclient/mockclient.go:218-238 | a printed token reads back as the same number |
| Ec2.Client.DescribeInstances | pkg/mockclient/mockclient.go:165-256 | the page server over the matching instances, called only with tokens that cause no slice-bounds panic |
| Tags.ScanTags | pkg/aws/core_util.go:114-120 | the scan yields the last key of each class in iteration order, a key with both prefixes counting as cluster key |
| Tags.ValidateSpecTags | pkg/aws/apis/validation/validation.go:55-78 | each error is reported exactly when no key of its class exists, whatever the iteration order |
| Tags.SelectionIsPossible | pkg/aws/core.go:599-605 | under every iteration order the scans select a key of each class that has one; both are non-empty exactly for accepted tags |
| Tags.SelectedIsLast | pkg/aws/core_util.go:114-120 | the scan selects the last cluster key and the last role key it meets |
| Tags.SelectionDeterministicIff | pkg/aws/core_util.go:114-120 | selection is independent of the iteration order exactly when neither class has two keys |
| Tags.GenerateTags | pkg/aws/core_util.go:266-292 | the tag list copies the map in iteration order without Name and ends with the machine's Name tag |
| Tags.LaunchTagsContents | pkg/aws/core_util.go:268-285 | the list has unique keys and consists of the class's entries with Name replaced by the machine name |
| Tags.SelectedKeysAreWritten | pkg/aws/core_util.go:114-134 | whatever the two iteration orders, the keys selected at lookup are among the tags written at launch |
| BlockDevices.ValidateBlockDevices | pkg/aws/apis/validation/validation.go:80-133 | each error is reported exactly when its condition holds, and none exactly for the lists that satisfy the declarative predicate Acceptable |
| BlockDevices.AcceptableIff | pkg/aws/apis/validation/validation.go:80-133 | what is accepted, spelled out: volume types, sizes, IOPS with the io1 rule, throughput, distinct names, one /root among numbered names |
| BlockDevices.ReportsMeans | pkg/aws/apis/validation/validation.go:80-133 | the condition of every single error, spelled out; root and duplicate counts are numbers of devices bearing the name |
| BlockDevices.NumbersAreNames | pkg/aws/apis/aws_provider_spec.go:43 | 107 numbers stand for different names that match the data-device pattern |
| BlockDevices.NamesAreNumbered | pkg/aws/apis/aws_provider_spec.go:43 | every name that matches the pattern has one of these numbers |
| BlockDevices.CapacityBound | pkg/aws/apis/validation/validation.go:92-130 | no accepted list has more than 108 devices |
| BlockDevices.CapacityReached | pkg/aws/apis/validation/validation.go:92-130 | some accepted list has 108 devices |
| BlockDevices.GenerateBlockDevices | pkg/aws/core_util.go:218-264 | when compilation fails, and the meaning of every field of each mapping otherwise, in order |
| BlockDevices.CompilationFailsIff | pkg/aws/core_util.go:220-233 | for an accepted list compilation fails exactly when it is empty or the image has no root name |
| BlockDevices.OneRoot | pkg/aws/core_util.go:228-233 | an accepted list has exactly one position that takes the image's root name |
| BlockDevices.CompiledNamesDistinctIff | pkg/aws/core_util.go:226-261 | the names of an accepted list's mappings are distinct exactly when no other device carries the image's root name; always when that name is outside the pattern |
| ProviderId.RoundTrip | pkg/aws/util.go:31-43 | decoding undoes encoding exactly for slash-free region and id |
| ProviderId.LastPartIff | pkg/aws/util.go:31-43 | the id comes back exactly when it is slash-free, whatever the region |
| ProviderId.DecodeShape | pkg/aws/util.go:36-43 | decoding fails exactly without a slash; otherwise the parts are slash-free and, joined by a slash, end the input |
| ProviderId.DecodeLastSegments | pkg/aws/util.go:36-43 | the last two segments are returned whatever stands before them |
| ProviderId.SlashedIdLosesRegion | pkg/aws/util.go:31-43 | an id with a slash decodes, after encoding, as it does alone |
| ProviderId.EncodeInjective | pkg/aws/util.go:31-33 | for one region different ids have different provider ids |
| VolumeId.DocumentedFormsAgree | pkg/aws/util.go:64-104 | all three documented forms of a volume id map to that id |
| VolumeId.PrefixedIff | pkg/aws/util.go:82-103 | for every plain zone and path behind the prefix, exactly when the translation succeeds and with what: the zone is accepted and the path is one volume id with slashes around it |
| VolumeId.MalformedIsRefused | pkg/aws/util.go:82-85 | a control character before the fragment or a broken percent escape in the path is an error |
| VolumeId.NormaliseFixedPoint | pkg/aws/util.go:72-104 | any successful result is returned unchanged when translated again |
| VolumeId.QueryAndFragmentIgnored | pkg/aws/util.go:78-104 | a query and a fragment change nothing, and a zone or fragment the library refuses makes the translation fail |
| VolumeId.UnescapeEscaped | pkg/aws/util.go:78-90 | a percent-escaped path is read as what it stands for |
| VolumeId.VolumeOfMeans | pkg/aws/core.go:686-699 | an EBS source decides alone by its translated id; of CSI sources only those of the EBS driver with a handle count |
| VolumeId.ResultIsEbsVolumeIff | pkg/aws/util.go:82-103 | the result has the documented form exactly for prefixed ids and for ids that had it already |
| VolumeId.GetVolumeIDs | pkg/aws/core.go:675-707 | the result lists, in order, the volume id of exactly those specs that have one |
| VolumeId.WithVolumeOne | pkg/aws/core.go:686-699 | a single spec is selected exactly when it has a volume |
| VolumeId.WithVolumeConcat | pkg/aws/core.go:686-699 | selecting the specs with a volume is an order-preserving filter |
| Drivers.Driver.DecodeProviderSpecAndSecret | pkg/aws/core_util.go:42-62 | an undecodable spec is Internal, one that fails validation InvalidArgument, any other is passed on |
| Drivers.Driver.ValidateNetworkInterfaces | pkg/aws/apis/validation/validation.go:160-199 | accepts exactly the lists with at least one interface, all of known types and without negative device indices |
| Answers.DecodedIff | pkg/aws/core_util.go:42-62 | a spec is passed on exactly if it decodes and meets each rule, and is refused as Internal or InvalidArgument otherwise |
| Answers.RefusedRequests | pkg/aws/core.go:90-93 | every operation refuses such a spec with that code before any call |
| Answers.OtherProviders | pkg/aws/core.go:80-84 | other providers are refused with InvalidArgument at once, except by InitializeMachine, which ignores the provider |
| Answers.NoClient | pkg/aws/core.go:95-98 | the code of each operation without a client, and that no further call is made |
| Answers.CreateWithoutImage | pkg/aws/core.go:110-118 | the code for a failing image call, an unknown image, a missing root name and an annotation that does not decode, with nothing launched or asked for |
| Answers.CreateWithoutLaunch | pkg/aws/core.go:269-286 | otherwise one launch is requested; the code for its error, missing capacity and a blank answer |
| Answers.CreateWithoutName | pkg/aws/core.go:311-316 | an instance without a node name fails the creation with Internal |
| Answers.LookupSucceedsIff | pkg/aws/core_util.go:154-158 | a lookup succeeds exactly when each of its page calls is accepted, and fails with Internal otherwise |
| Answers.FailedPages | pkg/aws/core_util.go:154-158 | a failing page makes initialisation, status and deletion by tags answer Internal, having changed nothing |
| Answers.FailedLists | pkg/aws/core.go:640-646 | a failing page makes the list answer Internal, having changed nothing |
| Answers.FallbackAnswers | pkg/aws/core_util.go:176-217 | with nothing found by tags, the code of status and initialisation for no provider id, one without slash, and each answer to the describe call |
| Drivers.Driver.Create | pkg/aws/core.go:67-326 | computes the creation function on the client's world: each error with its code, exhausted resources told apart, and the compiled devices handed to the launch |
| Drivers.Driver.LaunchInstance | pkg/aws/core.go:121-325 | tags, interfaces, compiled devices, launch, choice of the id, wait and node name compute the launch function, errors of the launch with their create codes |
| Drivers.Driver.RetryUntilVisible | pkg/aws/util.go:114-118 | looks for the instance until it is visible or the retries are used up, and then fails with the last error |
| Drivers.Driver.GetMatchingInstancesForMachine | pkg/aws/core_util.go:169-199 | lookup by tags, then by provider id, with the error of each branch |
| Drivers.Driver.Initialize | pkg/aws/core.go:331-392 | computes the initialisation function on the client's world |
| Drivers.Driver.DisableSourceDestCheck | pkg/aws/core_util.go:66-106 | computes the disabling function on the client's world |
| Drivers.Driver.AssignMissingPrefixes | pkg/aws/core.go:363-386 | computes the prefix assignment function on the client's world |
| Drivers.Driver.GetStatus | pkg/aws/core.go:483-571 | computes the status function, response and error, on the client's world |
| Drivers.Driver.Delete | pkg/aws/core.go:414-480 | computes the deletion function on the client's world |
| Drivers.Driver.Terminate | pkg/aws/core_util.go:294-321 | one terminate call, with "not found" counting as done |
| Drivers.Driver.List | pkg/aws/core.go:574-672 | computes the listing function on the client's world |
| Drivers.ListPages | pkg/aws/core.go:634-664 | the loop over pages and instances fills the map specified for the unpaged lookup |
| MockClients.MockClient.RunInstances | pkg/mockclient/mockclient.go:115-162 | fails without effect exactly for the failing image, with the error its key selects; otherwise appends one instance with the tags given and a DNS name made of the list's length, and an id forced by image and key or generated from length and placement |
| MockClients.MockClient.TerminateInstances | pkg/mockclient/mockclient.go:259-298 | points the client at a new list; the old one is not written to; reports whether any id was found |
| MockClients.TerminationStaysLocal | pkg/mockclient/mockclient.go:155-280 | a termination, and what the client launches after it, never reaches the provider's list |
| MockClients.RemovesNamedIff | pkg/mockclient/mockclient.go:269-279 | the named instances are gone exactly when every known one among them is the only id named |
| MockClients.NextIDCollidesIff | pkg/mockclient/mockclient.go:124-125 | after one termination from a generated list the next generated id collides exactly when the last instance was not the one removed |

## Left out

- The AWS SDK, credentials, STS and configuration: a client is available or not.
- Metrics and logging: no effect on results.
- JSON decoding of the provider spec and of the placement annotation, and base64 of user data: a spec is given
  decoded or not, an annotation decodes or not.
- The check that the secret holds user data: secret validation, which runs before it, already demands it.
- Wall-clock back-off: a bounded number of retries, chosen by the environment.
- Error code tables: codes are told apart as "instance id not found", exhausted resources, and other.
- Single-branch validators (AMI, region, IAM, capacity, placement, market, CPU, metadata, secret, and of interfaces the
  subnet, security groups and card index): one flag, `othersValid`.
- Drivers.Driver.LaunchInstance: the launch request carries image, device mappings, tags and the device index and
  type of each interface; its other fields (machine type, key, subnets, security groups, IAM, CPU, capacity, market
  and placement options, user data) have no effect on the driver's own decisions and are not modelled.
- Volume and interface tags: generated and sent, but not stored in the world.
- Concurrent driver calls and reads that miss fresh instances: histories are sequences of calls. A read by id may
  still answer "not found" or nothing, as its outcome says; a page of the tag lookup that comes back blank by its
  outcome counts as failed, so a lookup that succeeds is up to date.
- Wildcards in EC2 filters: values are compared exactly.
- Duplicate device indices and other limits of the EC2 launch API: any launch with fresh identities is possible.
- The 64-bit range error of the token parser: the server prints lengths of its own lists.
- Checks of net/url on the authority and the fragment of a volume URI: parameters of the model.
- The mock's other trigger names (regions, images and keys that force failures of other calls) and StopInstances.
