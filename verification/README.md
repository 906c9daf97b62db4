# Models and proofs for AWS ParallelCluster

A Dafny project that models the parts of AWS ParallelCluster whose correctness is not visible from one function body, and
proves what they are for. `dafny verify dfyconfig.toml` checks everything.

**Configuration updates.** `Values` and `Schema` define configuration trees and the parts of a schema that the comparison
reads. `ConfigDiff` is the intended difference of two configurations, a function of their values. `MarkedDiff` is the
comparison as it is carried out: it marks base list items, and it raises where Python would. `ConfigPatch` is the class that
does it in place, with one mutable path list per section shared by all its changes. On top of these:

- `Sharing`, `Repeats`, `SharedItems`: the marks make the comparison overlook a removal exactly when it compares an object
  first and drops it later; on a given base no target brings this about exactly when no object occurs at two places. YAML
  anchors make objects occur twice; then an update that takes a compute resource from a running queue is allowed.
- `Raising`: the comparison raises exactly when a list lies below an ignored section that one side lacks. Dropping
  `FsxLustreSettings` from a shared storage entry is such a case.
- `PathText`, `DiffShape`, `Scripts`, `Routes`: what the path and key of a recorded change say about the field it comes
  from. A switch between `Script` and `Sequence` moves all changes of its section, also earlier ones, to the parent's path.
- `Meaning`, `Replay`, `LostChanges`: the recorded changes, applied in their order, rebuild the target from the base,
  custom actions switching form or not, so two targets that are recorded alike mean the same. A target that repeats a name
  within a list is not determined.
- `DiffLaws` (with `Sums`), `Addresses`: nothing is recorded exactly when the two configurations mean the same and no list
  repeats a name; the opposite comparison swaps old and new; when exactly a change is recorded twice.
- `UpdatePolicy`, `PolicyConditions`: the checkers with their outcomes, and for every policy exactly when its check succeeds,
  raises or fails, spelled out on the change, the configurations and the cluster.
- `PatchCheck`, `PolicyLaws`: the loop over the changes against a cluster object, what it returns and reports, and laws of
  the whole check. `LoginPools` has two updates of login pools, with the
  configurations that lead to them, that the kept answer about login nodes decides wrongly.
- `ResizeSafety`, `PlacementSafety`, `FrozenFields`, `StorageSafety`: what an allowed update of a running cluster keeps in
  the target configuration, end to end. `QueueFragment` is a fragment of the queue part of the cluster schema, with custom actions
  and tags, which meets the hypotheses.

**Other components.** `DictionaryDiff` (recursive dictionary difference), `Batching` (greedy batches), `NameCase` and
`Arguments` (API names, command-line names and back), `TimeoutCache`, `ThreadedCache` and `BatchLookup` (three caches),
`Discriminator` (search over a cyclic class graph), `Validation` and `Params` (resources), `CleanupRole` and `Rollback`
(protocols that survive failures).

Calls into code outside the model are parameters: reading a number and reading JSON text (`UpdatePolicy.Parsers`), the
state of the fleet (`UpdatePolicy.Fleet`), the backend of a lookup, the clock of each call, the fate of each call to the
identity service, the outcome of each validator. A function that may raise in Python returns an option or a verdict here.

## Model

| member | source | states |
|---|---|---|
| ConfigPatch.ConfigPatch.Compare | cli/src/pcluster/config/config_patch.py:84-91 | the in-place comparison returns exactly when the traversal does, and its records, read through the path lists they share, are the changes of the traversal |
| ConfigPatch.ConfigPatch.CompareFields | cli/src/pcluster/config/config_patch.py:93-156 | one pass over the fields of a section appends what the traversal records, marks what it marks, and leaves the shared path list as all changes of the section will show it |
| ConfigPatch.ConfigPatch.CompareParam | cli/src/pcluster/config/config_patch.py:138-168 | a parameter is recorded when its values differ; a switch between script and sequence pops the list that earlier changes of the section share, and raises on an empty one |
| ConfigPatch.ConfigPatch.CompareSingle | cli/src/pcluster/config/config_patch.py:112-136 | a nested section is compared, or recorded whole, by presence on each side and by its policy |
| ConfigPatch.ConfigPatch.CompareList | cli/src/pcluster/config/config_patch.py:176-225 | target items against the first base item of their name, marking it; then the base items whose object carries no mark |
| ConfigDiff.FirstMatch | cli/src/pcluster/config/config_patch.py:188-195 | the match of an item is the first with its update key, and none exactly when no item has it |
| DiffShape.ParamRecorded | cli/src/pcluster/config/config_patch.py:138-168 | exactly what is recorded for a parameter: its two values under its key if they differ; a script is recorded under the key it is written under, and one that moves between its forms with both forms |
| DiffShape.ParamValues | cli/src/pcluster/config/config_patch.py:158-168 | where no script moves and no sequence is empty, a recorded change has the values that the two sides have under the key of the change |
| MarkedDiff.SectionLacksOnlyRemovals | cli/src/pcluster/config/config_patch.py:93-225 | whatever was marked before, the traversal records only intended changes, in order, and can lack only removals of list items |
| Sharing.RecordsIntendedIff | cli/src/pcluster/config/config_patch.py:93-225 | whatever configurations are compared and whatever was marked before, a traversal that returns records exactly the intended difference if and only if no object is dropped that was compared earlier or marked |
| Sharing.OverlooksIff | cli/src/pcluster/config/config_patch.py:200-225 | in terms of the order of events, an object is dropped after it was marked or compared |
| Repeats.NeverOverlooksIff | cli/src/pcluster/config/config_patch.py:176-225 | on an accepted base, the comparison with every accepted target, if it returns, records exactly the intended difference if and only if no list-item object occurs at two places of the base |
| Repeats.UnsharedRecordsIntended | cli/src/pcluster/config/config_patch.py:176-225 | if no list-item object occurs twice in the base and no list of the target repeats a name, the traversal records exactly the intended difference |
| SharedItems.MarkedListSilent | cli/src/pcluster/config/config_patch.py:209-225 | if all base items of a list carry marks, dropping any of them records nothing |
| SharedItems.SharedResourcesVanish | cli/src/pcluster/config/config_patch.py:200-225 | for every list of compute resources that two base queues share, as one YAML anchor makes them do, whatever else the queues hold, and every part of it the target keeps in the second queue: no removal is recorded and the update is allowed whatever is running, though a queue that loses a resource is not safe |
| Raising.RaisesIffOneSidedList | cli/src/pcluster/config/config_patch.py:118-136 | on well-typed configurations the comparison raises if and only if a list lies below an ignored section that one side lacks |
| Raising.RaisesIffBreaks | cli/src/pcluster/config/config_patch.py:93-225 | for all configurations, well-typed or not, the comparison raises if and only if a section or list that it reads is not what the schema expects |
| Raising.NeverRaises | cli/src/pcluster/config/config_patch.py:123-125 | a schema whose ignored sections hold no list makes the comparison return for all well-typed configurations |
| Raising.DroppingLustreSettingsRaises | cli/src/pcluster/schemas/cluster_schema.py:525-545 | dropping non-empty `FsxLustreSettings` from a shared storage entry makes the comparison raise, with or without data repository associations |
| DiffShape.PathKeptIff | cli/src/pcluster/config/config_patch.py:142-146 | the changes of a section share its path if and only if no custom action switches form; otherwise all end up at the parent's path |
| DiffShape.BelowUnique | cli/src/pcluster/config/config_patch.py:170-174 | the path and key of a change determine the field of the section it comes from |
| PathText.ExtractRoundTrip | cli/src/pcluster/config/update_policy.py:157-162 | taking a path segment apart gives back the list key and the item name it was made of |
| PathText.SegmentInjective | cli/src/pcluster/config/config_patch.py:199 | segments of different lists or differently named items differ, and no segment is a plain key |
| PathText.FoundInSegment | cli/src/pcluster/config/update_policy.py:165-173 | the search for a list pattern finds a segment exactly when the list key ends with the pattern's word |
| PathText.TextOfScalars | cli/src/pcluster/config/config_patch.py:199 | the text of a missing name, a truth value and a number, which reads back as the number |
| Replay.DiffIsSufficientPatch | cli/src/pcluster/config/config_patch.py:93-225 | for every base and every target whose lists repeat no name, applying the recorded changes in their order to the base gives a configuration that means the same as the target, also when custom actions switch form |
| Replay.DiffDeterminesTarget | cli/src/pcluster/config/config_patch.py:93-225 | two such targets with the same list of recorded changes mean the same |
| DiffLaws.EmptyIffSame | cli/src/pcluster/config/config_patch.py:93-225 | for all configurations, nothing is recorded if and only if the two mean the same and no list of the base has two items of one name, or an empty one |
| DiffLaws.UnchangedIffNamesApart | cli/src/pcluster/config/config_patch.py:188-225 | so an unchanged configuration records nothing if and only if none of its lists repeats a name or holds an empty item |
| DiffLaws.OppositeSwaps | cli/src/pcluster/config/config_patch.py:93-225 | if list items are matched one to one, a change is recorded if and only if the opposite comparison records it with old and new swapped |
| DiffLaws.OppositeSwapsMultiset | cli/src/pcluster/config/config_patch.py:93-225 | and it is recorded equally often, also when custom actions switch form |
| LostChanges.RepeatedNameHides | cli/src/pcluster/schemas/cluster_schema.py:935-992 | with one `S3Access` entry in the base, adding a second for the same bucket is recorded exactly like editing the one, though the targets differ |
| LostChanges.OrderTellsSection | cli/src/pcluster/config/config_patch.py:142-146 | when both custom actions of a queue switch from a sequence to a script, the arguments given to one or the other are the same changes as a multiset, their order left aside; only their order tells the targets apart |
| LostChanges.SameArgsTwice | cli/src/pcluster/config/config_patch.py:142-146 | when both are given the same arguments besides, one change is recorded twice |
| Addresses.AddressesDistinctIff | cli/src/pcluster/config/config_patch.py:93-225 | for every base and every target whose lists repeat no name: no parameter or section is recorded twice at one path and key and no change twice, if and only if no two custom actions of one section switch form while a parameter of one name differs in both, and no two equal base items are dropped |
| Addresses.ListItemsApart | cli/src/pcluster/config/config_patch.py:185-225 | two different changes of one list are about items with different update-key values |
| PatchCheck.CheckPatch | cli/src/pcluster/config/config_patch.py:242-278 | the loop's verdict and report rows are those of checking the changes in order with the kept answer about login nodes |
| PatchCheck.Cluster.HasRunningLoginNodes | cli/src/pcluster/models/cluster.py:765-778 | the first answer is kept and given for every later pool; an unknown pool raises |
| PatchCheck.Cluster.CheckSharedStorage | cli/src/pcluster/config/update_policy.py:446-464 | the shared storage checker with its questions to the cluster in the order the code asks them |
| PatchCheck.Cluster.CheckCondition | cli/src/pcluster/config/update_policy.py:580-774 | the condition checker of each policy, with what it leaves in the cluster object |
| PolicyConditions.OutcomeIff | cli/src/pcluster/config/update_policy.py:342-774 | for every policy, change, pair of configurations, state of the cluster and kept answer: exactly when the check succeeds, when it raises and when it fails outright, spelled out without the checkers |
| PolicyConditions.StrategyIff | cli/src/pcluster/config/update_policy.py:323-339 | the strategy counts as set if and only if the configuration has `Scheduling`, `SlurmSettings`, `QueueUpdateStrategy` and it is not `COMPUTE_FLEET_STOP`; as terminating if and only if it is `TERMINATE` |
| PolicyConditions.ResizeIff | cli/src/pcluster/config/update_policy.py:351-388 | exactly which resize changes pass, with additions, maxima and minima, and which raise |
| PolicyConditions.ExtraChefIff | cli/src/pcluster/config/update_policy.py:502-523 | a change of the attributes passes if and only if both texts parse to dictionaries that differ only at the three updatable paths |
| PolicyConditions.StorageIff | cli/src/pcluster/config/update_policy.py:446-464 | exactly which storage changes pass and which raise |
| PolicyConditions.ManagedFsxIff | cli/src/pcluster/config/update_policy.py:211-225 | exactly which changes under the managed file system policy pass and which raise |
| PolicyLaws.ReportExact | cli/src/pcluster/config/config_patch.py:242-278 | the check raises if and only if that of some change does, allows the patch if and only if every change succeeds, and reports exactly the changes that are not ignored successes, in order and each with its result |
| PolicyLaws.AllowedIsMonotone | cli/src/pcluster/config/update_policy.py:342-483 | with less running, an allowed patch stays allowed, for all policies and all lists of changes |
| PolicyLaws.PassesIffEachWithFirst | cli/src/pcluster/models/cluster.py:765-778 | for all lists of changes, they pass if and only if each passes with the answer of the first change that gets one, whichever login nodes it is about itself |
| PolicyLaws.AllowedIff | cli/src/pcluster/config/update_policy.py:446-496 | for every patch, it is allowed if and only if nothing but login nodes stands in its way and, when the first answer is that they run, no change needs any stopped |
| PolicyLaws.LoginCheckWrongIff | cli/src/pcluster/config/update_policy.py:446-496 | for every patch, exactly when the kept answer lets through a change that its own answer would stop, and exactly when it stops a patch whose changes each pass on their own answers |
| LoginPools.RunningPoolRemoved | cli/src/pcluster/schemas/cluster_schema.py:1460-1502 | taking away a pool with running nodes is refused, but together with an edit of a stopped pool the edit is recorded first and the update is allowed |
| LoginPools.StoppedPoolRefused | cli/src/pcluster/schemas/cluster_schema.py:1460-1502 | adding a pool ahead of an edited stopped pool is refused while an unrelated pool runs, though each change passes on its own |
| PolicyLaws.ExtraChefKeepsScalars | cli/src/pcluster/config/update_policy.py:502-523 | an accepted change of the extra chef attributes leaves every scalar that no updatable path covers as it was, in both directions |
| PolicyLaws.MountDirRaisesIffRunning | cli/src/pcluster/config/update_policy.py:446-464 | the check of a changed mount directory succeeds if and only if no compute nodes and, by the kept or a new answer, no login nodes run, and raises otherwise |
| FrozenFields.UntouchedIffAgree | cli/src/pcluster/config/config_patch.py:93-225 | for any schema and any set of policies, no change with these policies is recorded if and only if the two sides agree on all fields that carry them |
| FrozenFields.AllowedFreezes | cli/src/pcluster/config/config_patch.py:242-278 | an allowed patch leaves all fields with such policies as they are, in every section that is compared |
| FrozenFields.AllowedUpdateFreezes | cli/src/pcluster/config/config_patch.py:242-278 | the same for what the comparison really records, when it overlooks no removal |
| FrozenFields.ManagedFsxKeepsSubnets | cli/src/pcluster/config/update_policy.py:211-225 | while a managed Lustre file system stays, an allowed patch moves no queue that stays to other subnets |
| StorageSafety.AllowedKeepsStorage | cli/src/pcluster/config/update_policy.py:446-464 | an allowed patch neither brings nor drops storage mounted at the home directory, and while compute nodes run under the default strategy, or login nodes by the kept answer, only external storage of the live types comes or goes |
| StorageSafety.AllowedIffMovesPass | cli/src/pcluster/config/update_policy.py:246-274 | a patch whose other changes pass is allowed if and only if no storage that stays gets another mount directory, or neither compute nor, by the kept answer, login nodes run |
| StorageSafety.AllowedKeepsMountDirs | cli/src/pcluster/config/update_policy.py:446-464 | so while anything runs an allowed patch leaves the mount directory of all storage that stays |
| StorageSafety.MovedStorageAllowedIff | cli/src/pcluster/config/update_policy.py:268-279 | moving a storage between any two directories, also to or from `/home`, which the policy says cannot be changed, is one change and is allowed if and only if nothing runs |
| ResizeSafety.AllowedKeepsQueues | cli/src/pcluster/config/update_policy.py:351-388 | with capacity running and a strategy that may not terminate nodes, an allowed patch keeps every queue and compute resource, lowers no maximum and leaves no fewer nodes beyond the minimum |
| ResizeSafety.AllowedUpdateKeepsQueues | cli/src/pcluster/config/config_patch.py:242-278 | the same for what the comparison really records, when it overlooks no removal |
| ResizeSafety.MaxCountOfResource | cli/src/pcluster/config/update_policy.py:361-383 | the sibling `MaxCount` change that the resize check finds by path is the compute resource's own |
| PlacementSafety.AllowedKeepsManagedGroups | cli/src/pcluster/config/update_policy.py:194-208 | with capacity running, a compute resource in a managed placement group, its own or its queue's, is in a managed one after an allowed patch |
| PlacementSafety.AllowedUpdateKeepsManagedGroups | cli/src/pcluster/config/update_policy.py:407-412 | the same for what the comparison really records, when it overlooks no removal |
| PlacementSafety.LookUp | cli/src/pcluster/config/update_policy.py:165-191 | the queue and compute resource found from a change's path are the ones the path was made for |
| PlacementSafety.ResourceGroupPassesIff | cli/src/pcluster/config/update_policy.py:194-208 | a placement group change in a compute resource of both configurations passes if and only if no compute node runs, or a strategy is set and no managed group is given up |
| PlacementSafety.QueueGroupPassesIff | cli/src/pcluster/config/update_policy.py:194-208 | the same for the networking of the queue itself |
| PlacementSafety.GroupDifferenceRecorded | cli/src/pcluster/config/config_patch.py:112-156 | placement groups that differ in presence or in being managed leave a change with the placement group policy |
| QueueFragment.FragmentFits | cli/src/pcluster/schemas/cluster_schema.py:1549-1805 | a fragment of the queue part of the cluster schema, with the scripts whose switch pops a path, meets the hypotheses of both safety results, of the replay and of the addresses |
| DictionaryDiff.DiffExact | cli/src/pcluster/utils.py:670-705 | a path is reported if and only if it spells a place where the dictionaries first differ |
| DictionaryDiff.PlainPathReported | cli/src/pcluster/utils.py:650-705 | for keys without dots, a list of keys is reported if and only if the dictionaries differ there |
| DictionaryDiff.DiffSymmetric | cli/src/pcluster/utils.py:670-705 | the order of the dictionaries makes no difference |
| DictionaryDiff.DiffEmptyIffEqual | cli/src/pcluster/utils.py:670-683 | nothing is reported if and only if the dictionaries are equal |
| DictionaryDiff.UncoveredScalarsUnchanged | cli/src/pcluster/config/update_policy.py:509-523 | if all reported paths are updatable, a scalar that no updatable path covers reads the same in both |
| DictionaryDiff.CollectLeaves | cli/src/pcluster/utils.py:650-659 | the loop collects the paths of all leaves |
| DictionaryDiff.GetDictionaryDiff | cli/src/pcluster/utils.py:670-705 | the three loops collect the reported paths |
| Batching.BatchByPropertyCallback | cli/src/pcluster/utils.py:451-473 | raises if and only if the total reaches the limit and an item exceeds it; otherwise the batches concatenate to the items, stay within the limit and are greedy |
| Batching.FewestBatches | cli/src/pcluster/utils.py:434-473 | no order-preserving split into batches within the limit has fewer batches |
| Batching.TotalExceedsHalf | cli/src/pcluster/utils.py:434-473 | m >= 2 batches have a total beyond floor(m / 2) limits |
| TimeoutCache.AsyncTimeoutCache.Await | cli/src/pcluster/utils.py:537-560 | a call awaits the future that the table has for its key after the call |
| TimeoutCache.StartsIff | cli/src/pcluster/utils.py:548-554 | a call starts the function, and awaits its own start, if and only if the time of every earlier start for its key is over |
| TimeoutCache.AwaitedIsFresh | cli/src/pcluster/utils.py:548-554 | over every run of calls, an awaited future is for the call's key and was started at most the timeout before |
| TimeoutCache.StartsAreRare | cli/src/pcluster/utils.py:548-554 | n starts for a key take at least n - 1 timeouts |
| ThreadedCache.OneRunPerKey | cli/src/pcluster/aws/common.py:199-227 | in every interleaving at most one thread runs the function for a key, whatever is cleared or switched |
| ThreadedCache.NoDeadlock | cli/src/pcluster/aws/common.py:212-220 | in every interleaving the holder of the table lock can go on, and while a call is under way some thread can |
| ThreadedCache.ReturnsTheFunction | cli/src/pcluster/aws/common.py:219-225 | in every interleaving a call that returns gives what the function gives, also when caches are cleared meanwhile |
| ThreadedCache.EndsAsItWent | cli/src/pcluster/aws/common.py:199-227 | in every interleaving, the calls of a thread end with exactly the outcomes that its runs of the function and its reads of the cache gave, one for one; a call raises only if its function did or the key was missing |
| ThreadedCache.OffRunsEveryCall | cli/src/pcluster/aws/common.py:219-225 | with the cache switched off, in every interleaving nothing is cached or read, and every call ends with the outcome of its own run |
| ThreadedCache.AtMostOneRun | cli/src/pcluster/aws/common.py:219-225 | with caching on and no clearing while a result is in hand, the function returns at most once per key since the last clearing, every call gets that result, and none raises unless the function does |
| ThreadedCache.ClearIsHarmlessIff | cli/src/pcluster/aws/common.py:181-227 | after the caches are cleared, some continuation returns a value that no run since produced, or raises though the function did not, if and only if some thread has a result in hand |
| ThreadedCache.ClearedTooEarly | cli/src/pcluster/aws/common.py:181-184 | clearing between the end of a run and its store leaves a value that no run since produced |
| ThreadedCache.ClearedBeforeRead | cli/src/pcluster/aws/common.py:220-221 | clearing between the test and the read of the cache makes the call raise |
| ThreadedCache.ClearedAfterRead | cli/src/pcluster/aws/common.py:220-225 | a value that was read is stored again, so clearing after the read leaves the old value in the cleared cache |
| BatchLookup.Client.DescribeById | cli/src/pcluster/aws/ec2.py:73-89 | one lookup returns the cached records and the backend's answer for the rest, and caches that answer |
| BatchLookup.LookupExactIff | cli/src/pcluster/aws/fsx.py:27-49 | a lookup returns each wanted record as often as its id occurs if and only if no id that was not cached occurs twice |
| BatchLookup.RunAgrees | cli/src/pcluster/aws/ec2.py:466-483 | over every run of lookups of known, duplicate-free ids, no id is fetched twice and the next lookup returns exactly the backend's records |
| BatchLookup.DescribeAgrees | cli/src/pcluster/aws/ec2.py:91-112 | a lookup returns if and only if all ids are known, and the cache keeps agreeing with the backend |
| Discriminator.GetDiscriminatorClass | api/client/src/pcluster_client/model_utils.py:1288-1337 | the recursion on one shared visited list computes the search, and ends on every class graph |
| Discriminator.FindsIffReachable | api/client/src/pcluster_client/model_utils.py:1309-1337 | a class is found if and only if some way through unvisited classes with a discriminator, each among the `oneOf`, `anyOf` or `allOf` of the one before, leads to one whose mapping has the value, and what is found is in the mapping of such a class |
| Discriminator.FindsFirst | api/client/src/pcluster_client/model_utils.py:1309-1337 | which class is found: the class's own mapping first, else what is found from the first following class that leads somewhere, in the order `oneOf`, `anyOf`, `allOf`; classes tried in vain make no difference |
| Discriminator.Resolve | api/client/src/pcluster_client/model_utils.py:272-277 | a lookup that starts with an empty list finds whatever is reachable |
| NameCase.SubstitutionsSeparate | cli/src/pcluster/utils.py:239-242 | the two substitutions together put a separator exactly before each capital that follows a lower-case letter or digit, or that a lower-case letter follows |
| NameCase.KebabOfWords | cli/src/pcluster/utils.py:239-242 | a name made of words is split exactly between its words |
| NameCase.SnakeByKebab | cli/src/pcluster/utils.py:245-248 | going to the argument name by way of the command-line name gives the words joined by underscores |
| NameCase.NameRoundTripIff | cli/src/pcluster/utils.py:227-248 | an alphanumeric API name comes back from its argument name if and only if its capitals can be told apart |
| NameCase.KeepsText | cli/src/pcluster/utils.py:239-248 | for any text, a converted name has only its own separator and no capitals, and without separators it is the text in lower case |
| NameCase.CamelNoneIff | cli/src/pcluster/utils.py:227-236 | the camel-case conversion has nothing to return if and only if there is nothing but underscores |
| Arguments.ConvertArgs | cli/src/pcluster/cli/entrypoint.py:75-99 | converting fails unless every parameter has an argument of its own; then every argument is in the body, under the field of its parameter, or among the keyword arguments under its own name, with its value, and the body is under its name |
| Arguments.BodyHasApiNames | cli/src/pcluster/cli/model.py:64-80 | the request body has exactly the API property names, each with its own argument, and uses up nothing else |
| Arguments.ArgNameInjective | cli/src/pcluster/cli/model.py:64-80 | different API names have different argument names |
| Validation.Resource.Collect | cli/src/pcluster/config/common.py:225-271 | on any acyclic tree of resources, also with resources held twice, the lists hold the post-order failures and futures |
| Validation.Resource.ValidateSelf | cli/src/pcluster/config/common.py:260-271 | a resource adds its own failures and futures in the order of registration |
| Validation.Resource.Validate | cli/src/pcluster/config/common.py:225-251 | a top-level validation returns the synchronous failures followed by the awaited ones, both in post-order |
| Validation.RunExact | cli/src/pcluster/config/common.py:196-271 | a validation that returns gives what each synchronous validator that is not suppressed adds, then what each asynchronous one adds, both in order: what it reports, or an error with its message and type for a synchronous one that raises |
| Validation.ReportedIff | cli/src/pcluster/config/common.py:196-271 | a failure is in the result if and only if a validator that is not suppressed reports it, or raises it as a synchronous one |
| Validation.Resource.AllOfTree | cli/src/pcluster/config/common.py:225-251 | the validators that run are exactly those registered on a resource of the tree |
| Validation.Resource.OwnComeLast | cli/src/pcluster/config/common.py:225-251 | nested resources come one right after the other and the resource's own validators last |
| Validation.ValidateTwice | cli/src/pcluster/config/common.py:237-251 | a second validation gives the same result |
| Validation.SuppressionFilters | cli/src/pcluster/config/common.py:63-79 | suppressing types of validators leaves exactly the failures that the others report, in the same order |
| Validation.ReturnsIff | cli/src/pcluster/config/common.py:196-214 | a validation returns if and only if no asynchronous validator that is not suppressed raises |
| Validation.AllSuppressed | cli/src/pcluster/config/common.py:50-60 | suppressing everything reports nothing and starts nothing |
| Params.RegistryIsInSync | cli/src/pcluster/config/common.py:95-105 | after any assignments each parameter has its attribute's value, and is implied if and only if the last assignment made it a parameter from a default |
| Params.Resource.SetValue | cli/src/pcluster/config/common.py:156-177 | a plain assignment updates the parameter object behind the attribute |
| Params.Resource.SetParam | cli/src/pcluster/config/common.py:156-182 | assigning a new parameter registers its object and gives the attribute its value |
| CleanupRole.AlwaysSound | cli/src/pcluster/imagebuilder_utils.py:203-247 | in every interleaving of runs with failures at any call, the tag implies both policies and a completed run left the role bootstrapped |
| CleanupRole.StepExact | cli/src/pcluster/imagebuilder_utils.py:203-247 | each call sets its own bit and no other, unless it fails before; the VPC policy is attached only by runs that ask for it |
| CleanupRole.VpcOnlyIfAsked | cli/src/pcluster/imagebuilder_utils.py:220-225 | if no run asks for the VPC policy, no interleaving attaches it |
| CleanupRole.RetryConverges | cli/src/pcluster/imagebuilder_utils.py:175-187 | after any of that, a further run without failures completes and leaves the role bootstrapped |
| CleanupRole.CompletesIff | cli/src/pcluster/imagebuilder_utils.py:172-247 | a run on its own completes if and only if the calls it needs work; what follows the tag check is skipped on a tagged role |
| CleanupRole.DeletionBreaksTagIff | cli/src/pcluster/imagebuilder_utils.py:203-247 | if the role is deleted meanwhile, some continuation ends with a tag that lies if and only if some run is about to put the inline policy or to set the tag |
| CleanupRole.Iam.EnsureCleanupRole | cli/src/pcluster/imagebuilder_utils.py:172-247 | the function on its own does the calls of a run, with every pattern of failures |
| Rollback.RollbackRoundTrip | util/rollback_s3_objects.py:24-43 | after a snapshot, any uploads and deletions, the rollback completes if and only if every recorded object exists; completed or not, the recorded objects before the first missing one have their content of the snapshot, all others are untouched and no version is lost; an object at its recorded version gets no new one |
| Rollback.RollbackIsIdempotent | util/s3_factory.py:149-176 | rolling back once more completes and changes no content |
| Rollback.DryRunChangesNothing | util/s3_factory.py:149-176 | without deploying the store is unchanged, and the run completes if and only if every object exists in a versioned bucket |
| Rollback.S3DocumentManager.GenerateRollbackData | util/common.py:74-95 | the snapshot records the current version of every file in every region's bucket, or nothing for a missing one, and fails if and only if one of the files is in a bucket without versioning |
| Rollback.S3DocumentManager.RevertObject | util/s3_factory.py:149-176 | reverting one object adds a version with the recorded content, or fails without effect |
| Rollback.S3DocumentManager.ExecuteRollback | util/rollback_s3_objects.py:39-43 | the loops restore the recorded objects in some order without repetition and stop at the first failure |

## Left out

- Replay.DiffIsSufficientPatch: assumes that names within a list of the target differ and are text, which the schema does not ask of `S3Access` (LostChanges.RepeatedNameHides shows two targets with the same list of changes); and that a section with a script holds parameters only, the script first, under names that no field around it has, as custom actions do.
- Addresses.ListItemsApart: on a base that repeats a name, several items of one name may be dropped.
- DiffLaws.OppositeSwaps: assumes that the first match by name goes both ways, which differing names give; with a repeated name the two comparisons match different items.
- Repeats.NeverOverlooksIff: the base and the targets name no two items of a list alike; Sharing.RecordsIntendedIff needs nothing of the kind.
- PlacementSafety.AllowedKeepsManagedGroups: the networking section of the queue is present on both sides, as the schema requires; names of queues and compute resources contain no brackets.
- Batching.FewestBatches: sizes are not negative; the other results hold for all sizes.
- BatchLookup.RunAgrees: the backend does not change; when it does, cached records go stale by design.
- TimeoutCache.AwaitedIsFresh: the future is given to calls on other objects with the same arguments too, since the object is not part of the key; what a failed future does to those that await it is not modelled.
- Rollback.RollbackRoundTrip: the store accepts a copy of an object onto itself; the rejection of a copy that changes nothing is not part of this model.
- Validation.ValidateTwice: validators report the same each time; the returned list is a value here, while in Python both calls return the same list object.
- Validation.Resource.Collect: the resources below a resource and its registered validators are constants; reading them off the attributes, and validators whose registration raises, are not modelled.
- Params.Resource.SetParam: every assignment makes its own parameter object; one object assigned to two attributes would tie their records together.
- Message texts, failure reasons and needed actions of the update policies, with the exceptions their construction may raise; `update_policy_level`; the JSON change set.
- Loading configurations: YAML and JSON parsing, schema validation, deep copies (the copies keep the sharing that the model's item identities show).
- Update-key values that are neither text, number, boolean nor missing; a user key called `visited`; line breaks in names, which the patterns of the code do not cross.
- Malformed shared storage entries whose settings are text or a list, for which `key in settings` means something else; the model lets the checker raise.
- Python equality across types (`True == 1`), hash collisions in cache keys, and text outside ASCII in the name converters.
- Nested calls of a cached function with the same arguments inside itself, which would wait for its own mutex.
- Timeouts of asynchronous validators, event loops, credentials, access control lists and regions of the storage scripts, the policy documents of the cleanup role.
- The API server, the command-line parser, cluster configuration constructors, CDK stacks, Slurm diagnostics and release scripts.
