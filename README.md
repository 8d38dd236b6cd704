# ocs-ci decision logic, modelled in Dafny

This project models the deterministic logic inside three files of the ocs-ci
test framework for OpenShift Data Foundation (Ceph on Kubernetes with the
Multicloud Object Gateway, MCG):

- `ocs_ci/ocs/resources/mcg.py` (module `Mcg`, file `mcg.dfy`). It models:
  - the path of the MCG CLI binary for an OS and machine type;
  - the "every chunk is mirrored" predicate of `check_if_mirroring_is_done`;
  - the first-match bucket search of `get_bucket_info`;
  - the backing-store state match of `check_backingstore_state`;
  - the bucket-class resource that `oc_create_bucketclass` builds;
  - the `bucketclass create` command that `cli_create_bucketclass` builds;
  - the parse of `obc list` output;
  - the three-way READY comparison of `status`.
- `tests/manage/z_cluster/cluster_expansion/test_delete_pod.py` (module `CapacityExpansion`, file `delete_pod.dfy`).
  - It models the setup fixture's skip and worker-node arithmetic, the bounded kill loop, and the expected OSD pod count.
  - It also models the test class itself as a Dafny `class`. Its field `newPodsInStatusRunning` is the flag that the waiter sets, the test resets and forces, and the kill loop polls.
  - A log of the steps the test issues against the cluster (`steps`) records the order of operations.
- `tests/manage/pv_services/test_resource_deletion_during_pvc_pod_creation_and_io.py` (module `ResourceDeletion`, file `pvc_deletion.dfy`). It models:
  - the access-mode list;
  - the RWO/RWX filters and the in-place split of Block PVCs;
  - the slicing into IO PVCs and new-pod PVCs;
  - the provider-switch decision and the IO storage type;
  - the pod-count check;
  - the loop that groups PVs by node (`node_pv_dict`).

Three helper modules model Python built-ins that the code relies on:

- `Wrappers`: `Option`, and `Result` with the Python exceptions the code can raise.
- `Lists`: comprehension filters, clamped slices, `list.remove`, distinctness.
- `Text`: `str.split(sep)`, `str.split()`, `join`, ASCII `lower`, substring `in`.

Everything the code obtains from the cluster, the CLI, S3 or the clock is a parameter of the model. Examples:

- the RPC replies and `oc` resource dumps;
- `platform.system()` and `platform.machine()`;
- the OCS version;
- `add_capacity`'s return value;
- whether a wait succeeds;
- the values the kill loop reads from the shared flag (`flagReads[k]` is the k-th read).

Two points of the code are worth stating, because a reader might expect otherwise:

- **Expected OSD pod count.** The expected count has no baseline term: the code waits for `storagedeviceset_count * replica_count` (test_delete_pod.py:118-122). `ExpectedOsdPods` has no baseline term either.
- **The forced flag at the end of the test.** The forced write at line 199 is reached only after the wait returned. A timeout of `wait_for_resource` raises first. In repeated mode the `with ThreadPoolExecutor()` block waits for the kill thread and then re-raises it. `TrialSteps` ends at the wait on a timeout, and `ForcedFlagNeverMasksTimeout` proves that the flag left behind equals the wait's success.

## Model

| member | source | states |
|---|---|---|
| Mcg.GetArchitecturePath | ocs_ci/ocs/resources/mcg.py:902-916 | Linux x86_64/ppc64le/s390x give `/usr/share/mcg/linux/noobaa-amd64`, `-ppc64le`, `-s390x`; another Linux machine gives `/usr/share/mcg/linux`; Darwin gives `/usr/share/mcg/macosx/noobaa`; any other OS gives `/usr/share/mcg/`; every result starts with `/usr/share/mcg/` |
| Mcg.CheckMirroring | ocs_ci/ocs/resources/mcg.py:775-802 | IndexError exactly when some chunk has no fragment; otherwise true iff every chunk's first fragment has at least 2 blocks on pairwise distinct nodes; true when there are no objects |
| Mcg.GetBucketInfo | ocs_ci/ocs/resources/mcg.py:252-257 | None iff no bucket has the name; otherwise the first bucket with that name |
| Mcg.CheckState | ocs_ci/ocs/resources/mcg.py:833-842 | true iff some pool's name is a substring of the backing-store name and that pool's mode is the desired state |
| Mcg.PrefixNamedPoolAnswers | ocs_ci/ocs/resources/mcg.py:834-841 | containment, not equality: a pool whose name is a prefix of the backing-store name answers for it |
| Mcg.EmptyNamedPoolAnswersAll | ocs_ci/ocs/resources/mcg.py:834-841 | a pool with an empty name matches every backing store, so its mode is reported for all of them |
| Mcg.OtherModeIsSkipped | ocs_ci/ocs/resources/mcg.py:834-842 | a matching pool in another mode does not end the search; the answer is that of the remaining pools |
| Mcg.OcCreateBucketclass | ocs_ci/ocs/resources/mcg.py:654-696 | fails exactly on an unusable template or a namespace policy missing a key its type reads: KeyError("metadata") without metadata, TypeError when metadata or a truthy namespace policy is not a dict, KeyError("type") without a type, and only KeyError for a dict policy missing a key; sets metadata name and namespace and keeps other template keys; `spec` is rebuilt from empty; a one-tier placement with the store names in order iff backingstores and placement are both given, overwritten by the raw placement for a Cache namespace; Single, Multi and Cache namespace layouts; the replication policy stored once iff truthy, wrapped in `rules` from 4.12 on |
| Mcg.CliCreateBucketclass | ocs_ci/ocs/resources/mcg.py:722-748 | the exact command string: placement prefix iff version ≥ 4.7, comma-joined store names, placement, and `--replication-policy <file>` iff the (possibly wrapped) policy is truthy; the file holds the policy, wrapped in `rules` from 4.12 on |
| Mcg.BackingstoresArgumentRoundTrip | ocs_ci/ocs/resources/mcg.py:722-723 | for a non-empty list of stores, splitting the `--backingstores` argument at commas gives back the store names when none contains a comma |
| Mcg.ObcRows | ocs_ci/ocs/resources/mcg.py:265 | no row holds a newline; output without a newline has no rows; otherwise the output is the header line, the rows and the piece after the last newline, joined by newlines |
| Mcg.ObcRowsRoundTrip | ocs_ci/ocs/resources/mcg.py:265 | for a header and lines without newlines, the rows of `header\nline1\n…\n` are exactly those lines |
| Mcg.BucketNamesOf | ocs_ci/ocs/resources/mcg.py:267 | IndexError iff some row has fewer than two whitespace-separated fields; otherwise exactly the set of second fields |
| Mcg.CliGetAllBucketNames | ocs_ci/ocs/resources/mcg.py:265-267 | every name returned is non-empty and holds no whitespace |
| Mcg.ObcListRoundTrip | ocs_ci/ocs/resources/mcg.py:265-267 | parsing a printed table (header, rows, trailing newline) gives the set of its second column |
| Mcg.Status | ocs_ci/ocs/resources/mcg.py:998-1003 | true iff all three phases are "Ready"; KeyError iff the NooBaa or backing-store phase is missing, or those two are equal and the bucket-class phase is missing; two differing phases give false without looking at the third |
| CapacityExpansion.Setup | tests/manage/z_cluster/cluster_expansion/test_delete_pod.py:45-68 | skip iff the OSD count reaches MAX_OSDS; otherwise exactly 6 − workers are added on vSphere (any capitalisation) with at least 9 OSDs and fewer than 6 workers, and none otherwise |
| CapacityExpansion.UpperCasePlatformAddsWorkers | tests/manage/z_cluster/cluster_expansion/test_delete_pod.py:52-64 | the platform name is lower-cased before the comparison: "vSphere" with 12 OSDs and 4 workers adds 2 |
| CapacityExpansion.ExpectedOsdPods | tests/manage/z_cluster/cluster_expansion/test_delete_pod.py:114-122 | device sets × 1 under flexible scaling, × 3 otherwise, with no baseline term |
| CapacityExpansion.KillsIssued | tests/manage/z_cluster/cluster_expansion/test_delete_pod.py:88-96 | the loop never issues more deletions than its budget |
| CapacityExpansion.KillsIssuedShape | tests/manage/z_cluster/cluster_expansion/test_delete_pod.py:88-96 | at least one deletion when the budget is positive, even with the flag already set; the loop stops at the first iteration whose read sees the flag; it uses the whole budget iff no read within it does |
| CapacityExpansion.WarningOnlyWhenExhausted | tests/manage/z_cluster/cluster_expansion/test_delete_pod.py:98-102 | with a flag that is never cleared, the warning after the loop implies the budget ran out without the signal |
| CapacityExpansion.TimeoutUsesWholeBudget | tests/manage/z_cluster/cluster_expansion/test_delete_pod.py:88-96 | when no read sees the flag, as on a timed-out wait, the loop issues its whole budget of deletions |
| CapacityExpansion.DefaultBudgetBound | tests/manage/z_cluster/cluster_expansion/test_delete_pod.py:75-96 | with the default budget of 30 the loop issues between 1 and 30 deletions |
| CapacityExpansion.NewOsdPodsBeforeDeletion | tests/manage/z_cluster/cluster_expansion/test_delete_pod.py:177-197 | in both modes the only deletion step comes right after the wait for new OSD pods, which comes right after add_capacity |
| CapacityExpansion.ForcedFlagNeverMasksTimeout | tests/manage/z_cluster/cluster_expansion/test_delete_pod.py:175-199 | the flag after a run equals whether the wait succeeded, and the forced write always follows the waiter's own write |
| CapacityExpansion.SetAtMostOnce | tests/manage/z_cluster/cluster_expansion/test_delete_pod.py:118-124 | the waiter sets the flag at most once per run |
| CapacityExpansion.TestAddCapacityWithResourceDelete.constructor | tests/manage/z_cluster/cluster_expansion/test_delete_pod.py:38 | a new test object has the flag false and an empty log |
| CapacityExpansion.TestAddCapacityWithResourceDelete.KillResourceRepeatedly | tests/manage/z_cluster/cluster_expansion/test_delete_pod.py:75-102 | issues `KillsIssued` deletions of the named resource; it stops by the signal iff a read within the budget sees the flag; it warns iff the read after the loop sees false |
| CapacityExpansion.TestAddCapacityWithResourceDelete.WaitForOsdPodsToBeRunning | tests/manage/z_cluster/cluster_expansion/test_delete_pod.py:103-124 | logs the wait for `ExpectedOsdPods` pods with selector `app=rook-ceph-osd` and timeout 420; sets the flag only when the wait succeeds |
| CapacityExpansion.TestAddCapacityWithResourceDelete.ResetAndExpand | tests/manage/z_cluster/cluster_expansion/test_delete_pod.py:175-185 | resets the flag, then logs add_capacity and the wait for new OSD pods, in that order |
| CapacityExpansion.TestAddCapacityWithResourceDelete.InjectDeletion | tests/manage/z_cluster/cluster_expansion/test_delete_pod.py:188-196 | logs one deletion step: the kill loop with its `KillsIssued` deletions in repeated mode, a single `delete_resource` otherwise; the flag is untouched |
| CapacityExpansion.TestAddCapacityWithResourceDelete.AddCapacityWithResourceDelete | tests/manage/z_cluster/cluster_expansion/test_delete_pod.py:169-202 | appends exactly `TrialSteps` to the log; the flag ends equal to the wait's success; the outcome is a timeout, a pass or a failed health check; with the flag written only by the waiter, a timed-out repeated run logs all 30 deletions |
| ResourceDeletion.BuildAccessModes | tests/manage/pv_services/test_resource_deletion_during_pvc_pod_creation_and_io.py:142-154 | always starts with RWO; CephFS appends RWX; CephBlockPool appends RWO-Block and RWX-Block; any other interface gives RWO alone |
| ResourceDeletion.RwoRwxDisjoint | tests/manage/pv_services/test_resource_deletion_during_pvc_pod_creation_and_io.py:172-181 | the RWO and RWX filters never take the same PVC: together they are a sub-multiset of the PVCs |
| ResourceDeletion.SplitBlockPvcs | tests/manage/pv_services/test_resource_deletion_during_pvc_pod_creation_and_io.py:186-190 | the Block list holds exactly the Block RWO PVCs in their order; the RWO list keeps exactly the others in their order; together they are a permutation of the original |
| ResourceDeletion.SelectPvcs | tests/manage/pv_services/test_resource_deletion_during_pvc_pod_creation_and_io.py:199-204 | the IO set and the new-pod set together are a permutation of the lists taken; the IO set is the first 2 RWO, the first 2 RWX and the first 2 Block PVCs (fewer when a list is shorter) with Block PVCs present, and the first 3 RWO and first 3 RWX otherwise, in that order; never more than 6 |
| ResourceDeletion.SetupSelectionCoversEachPvcOnce | tests/manage/pv_services/test_resource_deletion_during_pvc_pod_creation_and_io.py:172-204 | after filtering, splitting and slicing, every RWO or RWX PVC lands in exactly one of the two sets |
| ResourceDeletion.SwitchIgnoresCase | tests/manage/pv_services/test_resource_deletion_during_pvc_pod_creation_and_io.py:229-237 | two platform names equal after lower-casing give the same decision, lower-casing first changes nothing, and resources other than mds, mon, mgr and osd never switch |
| ResourceDeletion.StorageType | tests/manage/pv_services/test_resource_deletion_during_pvc_pod_creation_and_io.py:275-278 | "block" iff the volume mode is Block, "fs" otherwise |
| ResourceDeletion.PodCount | tests/manage/pv_services/test_resource_deletion_during_pvc_pod_creation_and_io.py:248-266 | KeyError iff the resource has no pod getter; otherwise the number of its pods |
| ResourceDeletion.PodCountRestored | tests/manage/pv_services/test_resource_deletion_during_pvc_pod_creation_and_io.py:397-403 | KeyError iff the resource has no pod getter; otherwise passes iff the final pod count equals the initial one |
| ResourceDeletion.FirstMatch | tests/manage/pv_services/test_resource_deletion_during_pvc_pod_creation_and_io.py:374-378 | None iff no PVC has the claim name; otherwise the PV of the first PVC with that name |
| ResourceDeletion.MatchClaim | tests/manage/pv_services/test_resource_deletion_during_pvc_pod_creation_and_io.py:374-378 | after the inner loop `pv` is the first matching PVC's PV, or its old value when none matches |
| ResourceDeletion.AsWrittenPvs | tests/manage/pv_services/test_resource_deletion_during_pvc_pod_creation_and_io.py:370-378 | one PV per pod when it succeeds; its only error is NameError |
| ResourceDeletion.AsWrittenFailsOnlyOnFirstPod | tests/manage/pv_services/test_resource_deletion_during_pvc_pod_creation_and_io.py:370-378 | the loop as written fails iff the first pod's claim matches no PVC |
| ResourceDeletion.BackingPvs | tests/manage/pv_services/test_resource_deletion_during_pvc_pod_creation_and_io.py:370-378 | fails iff some pod's claim matches no PVC; otherwise each pod gets the PV of its own claim |
| ResourceDeletion.AsWrittenAgreesWhenEveryClaimMatches | tests/manage/pv_services/test_resource_deletion_during_pvc_pod_creation_and_io.py:370-378 | when every claim matches a PVC, the code as written records the intended PVs |
| ResourceDeletion.AsWrittenPick | tests/manage/pv_services/test_resource_deletion_during_pvc_pod_creation_and_io.py:374-378 | for every input, a pod whose claim matches a PVC is recorded with the first such PVC's PV, and a pod whose claim matches none is recorded with the previous pod's PV |
| ResourceDeletion.StalePvPicks | tests/manage/pv_services/test_resource_deletion_during_pvc_pod_creation_and_io.py:374-378 | example: two pods, the second on a claim no PVC carries; the code as written records `pv-a` for both |
| ResourceDeletion.StalePvCounterexample | tests/manage/pv_services/test_resource_deletion_during_pvc_pod_creation_and_io.py:369-382 | on that input `node_pv_dict` lists the first PV twice under the node, while the intended grouping fails |
| ResourceDeletion.BuildNodePvDict | tests/manage/pv_services/test_resource_deletion_during_pvc_pod_creation_and_io.py:369-382 | the loop as written computes `GroupAsWritten`; when every claim matches a PVC it computes the intended `GroupByNode` |
| ResourceDeletion.GroupByNode | tests/manage/pv_services/test_resource_deletion_during_pvc_pod_creation_and_io.py:369-382 | one key per node that runs a pod; under each node exactly the PVs of that node's pods, in pod order; the list lengths add up to the number of pods; fails only on an unmatched claim |
| ResourceDeletion.GroupedKeys | tests/manage/pv_services/test_resource_deletion_during_pvc_pod_creation_and_io.py:379-382 | the keys are exactly the nodes seen, each listed once in the insertion-order list |
| ResourceDeletion.GroupedKeyOrder | tests/manage/pv_services/test_resource_deletion_during_pvc_pod_creation_and_io.py:379-382 | every listed key is a node of some pod, and the keys are listed in the order the nodes first appear among the pods |
| ResourceDeletion.GroupedLists | tests/manage/pv_services/test_resource_deletion_during_pvc_pod_creation_and_io.py:379-382 | a new key starts as a singleton list and each later PV is appended under its own node: each list is the node's PVs in pod order |
| ResourceDeletion.GroupedTotal | tests/manage/pv_services/test_resource_deletion_during_pvc_pod_creation_and_io.py:379-382 | the total of the list lengths equals the number of pods |

## Left out

- Cluster, CLI and cloud I/O are left out: `oc` get/wait/delete, `exec_mcg_cmd`, `send_rpc_query`, boto3/S3/STS, `oc image extract`, file rename and chmod, temporary files. Their results are parameters.
- Polling and retries are left out: `TimeoutSampler`, `@retry`, `wait_for_resource`, `sleep`. They are time-based. Only the predicate each poll evaluates is modelled (`CheckMirroring`, `CheckState`), and a wait's outcome is a boolean parameter.
- `ThreadPoolExecutor` concurrency is left out in both tests. The flag shared with the kill loop is a sequence of observed values. In the step log the kill loop is listed before the concurrent wait.
- Calls into code that is not part of this model are opaque: `Disruptions`, `add_capacity`, `is_flexible_scaling_enabled`, the pod getters, `multi_pvc_factory`, `create_pods`, `add_nodes`, `label_nodes`, `check_ceph_health_after_add_capacity`. A deletion issued through `Disruptions` is assumed to return.
- `storage_cluster.add_capacity` and `pod_helpers.wait_for_new_osd_pods_to_come_up` (test_delete_pod.py:179, 185) are assumed to return. `TrialOutcome` has no case for either failing; in the code such a failure ends the test before any deletion.
- Mcg.Status: a resource dump without a `status` key raises KeyError on `["status"]`, not on `["phase"]`. The model reports both as `KeyError("phase")`.
- The labelling of worker nodes that are not in OCS (test_delete_pod.py:70-73) is left out: it is a cluster side effect with no decision in it.
- `json.dumps`, `base64` decoding and the regular expression of `get_mcg_cli_version` are library internals. JSON is a structured value, and `JDumps(doc)` stands for the dumped text.
- Values not shown in the repository are parameters: `constants.PLACEMENT_BUCKETCLASS`, `constants.MAX_OSDS`, `constants.MANAGED_SERVICE_PLATFORMS`, and the bucket-class template YAML. The access-mode, namespace-policy, platform and status constants use the values their names spell.
- `Text.Lower` folds ASCII letters only. `Text.Whitespace` holds every ASCII character for which `str.isspace()` is true: space, tab, line feed, carriage return, vertical tab, form feed and the separators 0x1C-0x1F. Python's `str.lower()` and `str.split()` also handle non-ASCII letters and spaces (for example U+0085 and U+00A0), which the model does not.
- `Lists.RemoveFirst` compares PVCs by value. Python compares the PVC objects by identity. The results agree because an equal value removed from the kept list would have to be a Block PVC, and the kept list holds none.
- The IO workload and FIO result checks of the PVC test (lines 272-364, apart from the storage-type choice at 275-278), the pod deletion and its wait (lines 384-390) and the mount verification (lines 409-418) are left out: they only relay cluster results. The pod-count assertion between them (lines 397-403) is modelled by `PodCountRestored`.
- The cluster-context switches to the provider and back (lines 392-394 and 405-407) are configuration I/O. Only the decision to switch (`SwitchToProviderNeeded`) is modelled.
- CapacityExpansion.TestAddCapacityWithResourceDelete.AddCapacityWithResourceDelete: deletions in the kill loop run concurrently with the wait in repeated mode. The model runs the loop to completion first, on the given reads of the flag.

## Findings

| source | as written | input that shows it | evidently intended | confidence | as-written member | corrected member |
|---|---|---|---|---|---|---|
| tests/manage/pv_services/test_resource_deletion_during_pvc_pod_creation_and_io.py:374-382 | when no PVC name matches the pod's claim, `pv` keeps the previous pod's value and is appended under this pod's node (or raises NameError at the first pod) | two pods on `node-1` with claims `claim-a` and `claim-b`, and one PVC `claim-a` backed by `pv-a`: `node_pv_dict` becomes `{"node-1": ["pv-a", "pv-a"]}` | each pod contributes the PV of its own claim, and an unmatched claim is an error | not executed | ResourceDeletion.StalePvCounterexample | ResourceDeletion.GroupByNode |
