/** The deterministic parts of the test that deletes a Ceph or CSI resource while
    PVCs and pods are being created and IO runs: which access modes the PVCs use,
    how the PVCs are partitioned and sliced between IO pods and new pods, which
    cluster the daemon pods are counted on, and how PVs are grouped by node. */
module ResourceDeletion {
  import opened Wrappers
  import opened Lists
  import opened Text

  const AccessModeRwo := "ReadWriteOnce"
  const AccessModeRwx := "ReadWriteMany"
  const CephBlockPool := "CephBlockPool"
  const CephFileSystem := "CephFileSystem"
  const VolumeModeBlock := "Block"

  /** A PVC as the test sees it once `volume_mode` has been copied from its spec. */
  datatype Pvc = Pvc(name: string, accessMode: string, volumeMode: string, backedPv: string)

  /** What `pod.get()` reports: the node the pod runs on and the claim of its
      first volume. */
  datatype Pod = Pod(name: string, nodeName: string, claimName: string)

  // ---------------------------------------------------------------------------
  // Access modes and partitioning of the PVCs

  /** The access-mode list handed to the PVC factory. */
  method BuildAccessModes(interface: string) returns (modes: seq<string>)
    ensures |modes| >= 1 && modes[0] == AccessModeRwo
    ensures forall k :: 0 <= k < |modes| ==> AccessModeRwo <= modes[k] || AccessModeRwx <= modes[k]
    ensures interface == CephFileSystem ==> modes == [AccessModeRwo, AccessModeRwx]
    ensures interface == CephBlockPool ==>
              modes == [AccessModeRwo, AccessModeRwo + "-Block", AccessModeRwx + "-Block"]
    ensures interface != CephFileSystem && interface != CephBlockPool ==> modes == [AccessModeRwo]
  {
    modes := [AccessModeRwo];
    if interface == CephFileSystem {
      modes := modes + [AccessModeRwx];
    }
    if interface == CephBlockPool {
      modes := modes + [AccessModeRwo + "-Block", AccessModeRwx + "-Block"];
    }
  }

  predicate IsRwo(p: Pvc) { p.accessMode == AccessModeRwo }
  predicate IsRwx(p: Pvc) { p.accessMode == AccessModeRwx }
  predicate IsBlock(p: Pvc) { p.volumeMode == VolumeModeBlock }
  predicate IsNotBlock(p: Pvc) { !IsBlock(p) }

  /** The RWO and the RWX comprehensions never claim the same PVC: together they
      take at most every PVC once. */
  lemma {:induction false} RwoRwxDisjoint(pvcs: seq<Pvc>)
    ensures multiset(Filter(pvcs, IsRwo)) + multiset(Filter(pvcs, IsRwx)) <= multiset(pvcs)
    ensures |Filter(pvcs, IsRwo)| + |Filter(pvcs, IsRwx)| <= |pvcs|
  {
    if pvcs != [] {
      RwoRwxDisjoint(pvcs[1..]);
      assert pvcs == [pvcs[0]] + pvcs[1..];
    }
  }

  /** The loop over a copy of `rwo_pvcs` that moves every Block PVC to
      `block_rwo_pvcs` and removes it from `rwo_pvcs`. */
  method SplitBlockPvcs(rwo: seq<Pvc>) returns (rest: seq<Pvc>, block: seq<Pvc>)
    ensures block == Filter(rwo, IsBlock)
    ensures rest == Filter(rwo, IsNotBlock)
    ensures multiset(rest) + multiset(block) == multiset(rwo)
  {
    rest := rwo;
    block := [];
    var copy := rwo;
    for i := 0 to |copy|
      invariant block == Filter(rwo[..i], IsBlock)
      invariant rest == Filter(rwo[..i], IsNotBlock) + rwo[i..]
      invariant multiset(rest) + multiset(block) == multiset(rwo)
    {
      var p := copy[i];
      if p.volumeMode == VolumeModeBlock {
        SplitStepMove(rwo, i);
        block := block + [p];
        rest := RemoveFirst(rest, p);
      } else {
        SplitStepKeep(rwo, i);
      }
    }
    assert rwo[..|rwo|] == rwo;
  }

  /** One iteration of the split on a PVC that is not Block: it stays. */
  lemma SplitStepKeep(rwo: seq<Pvc>, i: nat)
    requires i < |rwo| && !IsBlock(rwo[i])
    ensures Filter(rwo[..i + 1], IsBlock) == Filter(rwo[..i], IsBlock)
    ensures Filter(rwo[..i + 1], IsNotBlock) + rwo[i + 1..] == Filter(rwo[..i], IsNotBlock) + rwo[i..]
  {
    var p := rwo[i];
    assert rwo[..i + 1] == rwo[..i] + [p];
    FilterSnoc(rwo[..i], p, IsBlock);
    FilterSnoc(rwo[..i], p, IsNotBlock);
    assert rwo[i..] == [p] + rwo[i + 1..];
  }

  /** One iteration of the split on a Block PVC: it moves to the Block list, and
      the first equal element left in `rest` is this one. */
  lemma SplitStepMove(rwo: seq<Pvc>, i: nat)
    requires i < |rwo| && IsBlock(rwo[i])
    ensures Filter(rwo[..i + 1], IsBlock) == Filter(rwo[..i], IsBlock) + [rwo[i]]
    ensures rwo[i] in Filter(rwo[..i], IsNotBlock) + rwo[i..]
    ensures RemoveFirst(Filter(rwo[..i], IsNotBlock) + rwo[i..], rwo[i]) == Filter(rwo[..i + 1], IsNotBlock) + rwo[i + 1..]
  {
    var p := rwo[i];
    var kept := Filter(rwo[..i], IsNotBlock);
    assert rwo[..i + 1] == rwo[..i] + [p];
    FilterSnoc(rwo[..i], p, IsBlock);
    FilterSnoc(rwo[..i], p, IsNotBlock);
    assert rwo[i..] == [p] + rwo[i + 1..];
    RemoveAfterKept(kept, p, rwo[i + 1..]);
  }

  /** `list.remove` of a Block PVC skips the non-Block PVCs kept before it. */
  lemma RemoveAfterKept(kept: seq<Pvc>, p: Pvc, tail: seq<Pvc>)
    requires forall q :: q in kept ==> IsNotBlock(q)
    requires IsBlock(p)
    ensures p in kept + ([p] + tail)
    ensures RemoveFirst(kept + ([p] + tail), p) == kept + tail
  {
    assert p !in kept;
    RemoveFirstAfterPrefix(kept, [p] + tail, p);
    assert RemoveFirst([p] + tail, p) == tail;
  }

  function Min(a: nat, b: nat): nat { if a <= b then a else b }

  /** The PVCs given to the IO pods and those left for the pods created during the
      deletion. */
  datatype Selection = Selection(forIo: seq<Pvc>, forNewPods: seq<Pvc>)

  /** With Block PVCs present the IO pods take two of each list, otherwise three
      RWO and three RWX; every other PVC goes to the new pods. */
  function SelectPvcs(rwo: seq<Pvc>, rwx: seq<Pvc>, block: seq<Pvc>): (sel: Selection)
    ensures multiset(sel.forIo) + multiset(sel.forNewPods)
            == multiset(rwo) + multiset(rwx) + (if block != [] then multiset(block) else multiset{})
    ensures |sel.forIo| == if block != [] then Min(|rwo|, 2) + Min(|rwx|, 2) + Min(|block|, 2)
                           else Min(|rwo|, 3) + Min(|rwx|, 3)
    ensures |sel.forIo| <= 6
    ensures var k := if block != [] then 2 else 3;
            var a, b := Min(|rwo|, k), Min(|rwx|, k);
            && sel.forIo[..a] == rwo[..a]
            && sel.forIo[a..a + b] == rwx[..b]
            && sel.forIo[a + b..] == (if block != [] then block[..Min(|block|, k)] else [])
  {
    if block != [] then
      SliceThree(rwo, rwx, block, 2);
      Selection(Take(rwo, 2) + Take(rwx, 2) + Take(block, 2), Drop(rwo, 2) + Drop(rwx, 2) + Drop(block, 2))
    else
      SliceThree(rwo, rwx, [], 3);
      assert Take(rwo, 3) + Take(rwx, 3) + Take([], 3) == Take(rwo, 3) + Take(rwx, 3);
      assert Drop(rwo, 3) + Drop(rwx, 3) + Drop([], 3) == Drop(rwo, 3) + Drop(rwx, 3);
      Selection(Take(rwo, 3) + Take(rwx, 3), Drop(rwo, 3) + Drop(rwx, 3))
  }

  /** Slicing three lists at `n` and concatenating the heads and the tails. */
  lemma SliceThree(a: seq<Pvc>, b: seq<Pvc>, c: seq<Pvc>, n: nat)
    ensures multiset(Take(a, n) + Take(b, n) + Take(c, n)) + multiset(Drop(a, n) + Drop(b, n) + Drop(c, n))
            == multiset(a) + multiset(b) + multiset(c)
    ensures |Take(a, n) + Take(b, n) + Take(c, n)| == Min(|a|, n) + Min(|b|, n) + Min(|c|, n)
  {
    assert Take(a, n) + Drop(a, n) == a;
    assert Take(b, n) + Drop(b, n) == b;
    assert Take(c, n) + Drop(c, n) == c;
    assert multiset(a) == multiset(Take(a, n)) + multiset(Drop(a, n));
    assert multiset(b) == multiset(Take(b, n)) + multiset(Drop(b, n));
    assert multiset(c) == multiset(Take(c, n)) + multiset(Drop(c, n));
  }

  /** The whole selection of the setup fixture: every RWO or RWX PVC ends up in
      exactly one of the two sets, and a PVC of any other access mode in neither. */
  lemma SetupSelectionCoversEachPvcOnce(pvcs: seq<Pvc>, rest: seq<Pvc>, block: seq<Pvc>)
    requires block == Filter(Filter(pvcs, IsRwo), IsBlock)
    requires rest == Filter(Filter(pvcs, IsRwo), IsNotBlock)
    requires multiset(rest) + multiset(block) == multiset(Filter(pvcs, IsRwo))
    ensures var sel := SelectPvcs(rest, Filter(pvcs, IsRwx), block);
            multiset(sel.forIo) + multiset(sel.forNewPods)
            == multiset(Filter(pvcs, IsRwo)) + multiset(Filter(pvcs, IsRwx))
  {
    if block == [] {
      assert multiset(block) == multiset{};
    }
  }

  // ---------------------------------------------------------------------------
  // Where the daemon pods are counted, and the IO storage type

  /** The resources whose pods live on the provider cluster of a managed service. */
  const ProviderResources: seq<string> := ["mds", "mon", "mgr", "osd"]

  /** The platform name is lower-cased before it is looked up among the
      managed-service platforms. */
  predicate SwitchToProviderNeeded(platform: string, managedServicePlatforms: seq<string>, resource: string) {
    Lower(platform) in managedServicePlatforms && resource in ProviderResources
  }

  /** The decision does not depend on how the platform name is capitalised, and
      plugin, provisioner and operator pods never send the test to the provider. */
  lemma SwitchIgnoresCase(platform: string, other: string, managedServicePlatforms: seq<string>, resource: string)
    ensures Lower(platform) == Lower(other) ==>
              SwitchToProviderNeeded(platform, managedServicePlatforms, resource)
              == SwitchToProviderNeeded(other, managedServicePlatforms, resource)
    ensures SwitchToProviderNeeded(Lower(platform), managedServicePlatforms, resource)
            == SwitchToProviderNeeded(platform, managedServicePlatforms, resource)
    ensures resource !in ProviderResources ==> !SwitchToProviderNeeded(platform, managedServicePlatforms, resource)
  {
    assert Lower(Lower(platform)) == Lower(platform);
  }

  /** The `storage_type` handed to the IO workload of a pod on `volumeMode`. */
  function StorageType(volumeMode: string): (t: string)
    ensures t == "block" || t == "fs"
    ensures t == "block" <==> volumeMode == VolumeModeBlock
  {
    if volumeMode == VolumeModeBlock then "block" else "fs"
  }

  // ---------------------------------------------------------------------------
  // The pod-count check

  /** The keys of `pod_functions`. */
  const PodFunctions: set<string> := {"mds", "mon", "mgr", "osd", "rbdplugin", "cephfsplugin",
                                      "cephfsplugin_provisioner", "rbdplugin_provisioner", "operator"}

  /** `len(pod_functions[resource]())`, where `pods` stands for the cluster's
      answer at the time of the call. */
  function PodCount(resource: string, pods: string -> seq<string>): (r: Result<nat>)
    ensures r.Failure? <==> resource !in PodFunctions
    ensures r.Failure? ==> r.error == KeyError(resource)
    ensures r.Success? ==> r.value == |pods(resource)|
  {
    if resource in PodFunctions then Success(|pods(resource)|) else Failure(KeyError(resource))
  }

  /** The final assertion: as many pods of the deleted type as before. */
  function PodCountRestored(resource: string, initialPods: string -> seq<string>,
                            finalPods: string -> seq<string>): (r: Result<bool>)
    ensures r.Failure? <==> resource !in PodFunctions
    ensures r.Success? ==> (r.value <==> |finalPods(resource)| == |initialPods(resource)|)
  {
    var initial :- PodCount(resource, initialPods);
    match PodCount(resource, finalPods)
    case Success(final) => Success(final == initial)
    case Failure(e) => Failure(e)
  }

  // ---------------------------------------------------------------------------
  // Grouping the PVs by node

  /** `backed_pv` of the first PVC named `claim`, if any. */
  function FirstMatch(pvcs: seq<Pvc>, claim: string): (pv: Option<string>)
    ensures pv.None? <==> forall j :: 0 <= j < |pvcs| ==> pvcs[j].name != claim
    ensures pv.Some? ==> exists j :: 0 <= j < |pvcs| && pvcs[j].name == claim && pvcs[j].backedPv == pv.value
                                    && forall k :: 0 <= k < j ==> pvcs[k].name != claim
  {
    if pvcs == [] then None
    else if pvcs[0].name == claim then Some(pvcs[0].backedPv)
    else
      var rest := FirstMatch(pvcs[1..], claim);
      assert forall j :: 1 <= j < |pvcs| ==> pvcs[j] == pvcs[1..][j - 1];
      assert rest.Some? ==> exists j :: 0 <= j < |pvcs| && pvcs[j].name == claim && pvcs[j].backedPv == rest.value
                                        && forall k :: 0 <= k < j ==> pvcs[k].name != claim by {
        if rest.Some? {
          var j :| 0 <= j < |pvcs[1..]| && pvcs[1..][j].name == claim && pvcs[1..][j].backedPv == rest.value
                   && forall k :: 0 <= k < j ==> pvcs[1..][k].name != claim;
          assert pvcs[j + 1] == pvcs[1..][j];
          assert forall k :: 1 <= k < j + 1 ==> pvcs[k] == pvcs[1..][k - 1];
        }
      }
      rest
  }

  /** The inner loop over `pvc_objs`: on the first PVC named `claim` it sets `pv`
      to that PVC's PV and breaks; when none matches `pv` keeps its old value
      (`None` while it was never bound). */
  method MatchClaim(pvcs: seq<Pvc>, claim: string, pv: Option<string>) returns (found: Option<string>)
    ensures FirstMatch(pvcs, claim).Some? ==> found == FirstMatch(pvcs, claim)
    ensures FirstMatch(pvcs, claim).None? ==> found == pv
  {
    found := pv;
    var j := 0;
    while j < |pvcs|
      invariant j <= |pvcs|
      invariant FirstMatch(pvcs[j..], claim) == FirstMatch(pvcs, claim)
    {
      assert pvcs[j..][1..] == pvcs[j + 1..];
      if pvcs[j].name == claim {
        found := Some(pvcs[j].backedPv);
        return;
      }
      j := j + 1;
    }
  }

  /** The PV recorded for each pod as the code is written: a pod whose claim
      matches no PVC gets the PV of the pod before it, and the very first pod
      raises NameError (an unbound local) instead. */
  function AsWrittenPvs(pods: seq<Pod>, pvcs: seq<Pvc>): (r: Result<seq<string>>)
    ensures r.Success? ==> |r.value| == |pods|
    ensures r.Failure? ==> r.error == NameError
  {
    if pods == [] then Success([])
    else
      var prev :- AsWrittenPvs(pods[..|pods| - 1], pvcs);
      match FirstMatch(pvcs, pods[|pods| - 1].claimName)
      case Some(pv) => Success(prev + [pv])
      case None => if prev == [] then Failure(NameError) else Success(prev + [prev[|prev| - 1]])
  }

  /** The intended PV of each pod: the PV backing its own claim; a claim that
      matches no PVC is an error rather than a silent reuse. */
  function BackingPvs(pods: seq<Pod>, pvcs: seq<Pvc>): (r: Result<seq<string>>)
    ensures r.Failure? <==> exists i :: 0 <= i < |pods| && FirstMatch(pvcs, pods[i].claimName).None?
    ensures r.Success? ==> |r.value| == |pods| &&
                           forall i :: 0 <= i < |pods| ==> FirstMatch(pvcs, pods[i].claimName) == Some(r.value[i])
  {
    if pods == [] then Success([])
    else
      var init := pods[..|pods| - 1];
      var last := pods[|pods| - 1];
      assert forall i :: 0 <= i < |init| ==> init[i] == pods[i];
      match BackingPvs(init, pvcs)
      case Failure(e) => Failure(e)
      case Success(prev) =>
        match FirstMatch(pvcs, last.claimName)
        case Some(pv) => Success(prev + [pv])
        case None => Failure(KeyError(last.claimName))
  }

  /** The code as written fails only when the first pod's claim matches no PVC. */
  lemma {:induction false} AsWrittenFailsOnlyOnFirstPod(pods: seq<Pod>, pvcs: seq<Pvc>)
    ensures AsWrittenPvs(pods, pvcs).Failure? <==> |pods| > 0 && FirstMatch(pvcs, pods[0].claimName).None?
  {
    if |pods| > 1 {
      var init := pods[..|pods| - 1];
      AsWrittenFailsOnlyOnFirstPod(init, pvcs);
      assert init[0] == pods[0];
    } else if |pods| == 1 {
      assert pods[..0] == [];
    }
  }

  /** The PV the code as written records for pod `i`: the PV of its own claim when
      some PVC carries it, and otherwise the one recorded for the pod before. */
  lemma {:induction false} AsWrittenPick(pods: seq<Pod>, pvcs: seq<Pvc>, i: nat)
    requires i < |pods| && AsWrittenPvs(pods, pvcs).Success?
    ensures FirstMatch(pvcs, pods[i].claimName).Some? ==>
              AsWrittenPvs(pods, pvcs).value[i] == FirstMatch(pvcs, pods[i].claimName).value
    ensures FirstMatch(pvcs, pods[i].claimName).None? ==>
              0 < i && AsWrittenPvs(pods, pvcs).value[i] == AsWrittenPvs(pods, pvcs).value[i - 1]
  {
    var init := pods[..|pods| - 1];
    assert AsWrittenPvs(init, pvcs).Success?;
    if i < |pods| - 1 {
      assert init[i] == pods[i];
      AsWrittenPick(init, pvcs, i);
    }
  }

  /** When every claim matches a PVC the code as written records the intended PVs. */
  lemma {:induction false} AsWrittenAgreesWhenEveryClaimMatches(pods: seq<Pod>, pvcs: seq<Pvc>)
    requires forall i :: 0 <= i < |pods| ==> FirstMatch(pvcs, pods[i].claimName).Some?
    ensures AsWrittenPvs(pods, pvcs) == BackingPvs(pods, pvcs)
  {
    if pods != [] {
      var init := pods[..|pods| - 1];
      assert forall i :: 0 <= i < |init| ==> init[i] == pods[i];
      AsWrittenAgreesWhenEveryClaimMatches(init, pvcs);
    }
  }

  /** Two pods on one node, the second on a claim that matches no PVC. */
  const StalePvcs := [Pvc("claim-a", AccessModeRwo, "Filesystem", "pv-a")]
  const StalePods := [Pod("pod-a", "node-1", "claim-a"), Pod("pod-b", "node-1", "claim-b")]

  /** On those pods the code as written records the first pod's PV for both. */
  lemma StalePvPicks()
    ensures AsWrittenPvs(StalePods, StalePvcs) == Success(["pv-a", "pv-a"])
    ensures FirstMatch(StalePvcs, "claim-b") == None
  {
    var pvcs, pods := StalePvcs, StalePods;
    assert FirstMatch(pvcs, "claim-a") == Some("pv-a");
    assert FirstMatch(pvcs, "claim-b") == None;
    var first := pods[..1];
    assert first[..0] == [] && first[0].claimName == "claim-a";
    assert |first| == 1 && first[..|first| - 1] == first[..0];
    assert FirstMatch(pvcs, first[|first| - 1].claimName) == Some("pv-a");
    assert AsWrittenPvs(first[..0], pvcs) == Success([]);
    assert AsWrittenPvs(first, pvcs).value == [] + ["pv-a"] == ["pv-a"];
    assert pods[..|pods| - 1] == first;
    assert AsWrittenPvs(pods, pvcs).value == ["pv-a"] + ["pv-a"] == ["pv-a", "pv-a"];
  }

  /** The code as written lists the first pod's PV twice under the node, although
      that PV does not back the second pod's claim; the intended grouping fails. */
  lemma StalePvCounterexample()
    ensures GroupAsWritten(StalePods, StalePvcs) == Success(NodePvs(["node-1"], map["node-1" := ["pv-a", "pv-a"]]))
    ensures StalePods[1].claimName != StalePvcs[0].name && |StalePvcs| == 1
    ensures GroupByNode(StalePods, StalePvcs) == Failure(KeyError("claim-b"))
  {
    StalePvPicks();
    assert NodesOf(StalePods) == ["node-1", "node-1"];
    TwoPvsOnOneNode();
    assert FirstMatch(StalePvcs, StalePods[1].claimName).None?;
  }

  lemma TwoPvsOnOneNode()
    ensures Grouped(["node-1", "node-1"], ["pv-a", "pv-a"]) == NodePvs(["node-1"], map["node-1" := ["pv-a", "pv-a"]])
  {
    var one := NodePvs(["node-1"], map["node-1" := ["pv-a"]]);
    GroupedSnoc([], [], "node-1", "pv-a");
    assert [] + ["node-1"] == ["node-1"] && [] + ["pv-a"] == ["pv-a"];
    assert Grouped([], []) == NodePvs([], map[]);
    assert Grouped(["node-1"], ["pv-a"]) == one;
    GroupedSnoc(["node-1"], ["pv-a"], "node-1", "pv-a");
    assert ["node-1"] + ["node-1"] == ["node-1", "node-1"];
    assert ["pv-a"] + ["pv-a"] == ["pv-a", "pv-a"];
    assert "node-1" in one.pvs && one.pvs["node-1"] + ["pv-a"] == ["pv-a", "pv-a"];
    assert one.pvs["node-1" := ["pv-a", "pv-a"]] == map["node-1" := ["pv-a", "pv-a"]];
  }

  /** `node_pv_dict`, an insertion-ordered dictionary from node to PVs. */
  datatype NodePvs = NodePvs(order: seq<string>, pvs: map<string, seq<string>>)

  function NodesOf(pods: seq<Pod>): (nodes: seq<string>)
    ensures |nodes| == |pods| && forall i :: 0 <= i < |pods| ==> nodes[i] == pods[i].nodeName
  {
    seq(|pods|, i requires 0 <= i < |pods| => pods[i].nodeName)
  }

  /** The values listed under `node`, in order. */
  function ListedUnder(nodes: seq<string>, values: seq<string>, node: string): (r: seq<string>)
    requires |nodes| == |values|
    ensures r == [] <==> node !in nodes
    ensures forall x :: x in r ==> exists i :: 0 <= i < |nodes| && nodes[i] == node && values[i] == x
  {
    if nodes == [] then []
    else ListedUnder(nodes[..|nodes| - 1], values[..|values| - 1], node)
         + (if nodes[|nodes| - 1] == node then [values[|values| - 1]] else [])
  }

  /** The sum of the list lengths over the keys in `order`. */
  function Total(order: seq<string>, m: map<string, seq<string>>): nat
    requires forall n :: n in order ==> n in m
  {
    if order == [] then 0 else |m[order[0]]| + Total(order[1..], m)
  }

  /** Appending value `k` under node `k`: an existing key gets it at the end of its
      list, a new key starts as a singleton list. */
  function Grouped(nodes: seq<string>, values: seq<string>): (d: NodePvs)
    requires |nodes| == |values|
    ensures forall n :: n in d.order <==> n in d.pvs
  {
    if nodes == [] then NodePvs([], map[])
    else
      var init := nodes[..|nodes| - 1];
      var node := nodes[|nodes| - 1];
      var pv := values[|values| - 1];
      var d := Grouped(init, values[..|values| - 1]);
      if node in d.pvs then NodePvs(d.order, d.pvs[node := d.pvs[node] + [pv]])
      else NodePvs(d.order + [node], d.pvs[node := [pv]])
  }

  /** The grouping as the code is written. */
  function GroupAsWritten(pods: seq<Pod>, pvcs: seq<Pvc>): Result<NodePvs> {
    var pvs :- AsWrittenPvs(pods, pvcs);
    Success(Grouped(NodesOf(pods), pvs))
  }

  /** The intended grouping, over the PV of each pod's own claim. It has one key
      per node that runs a pod, lists under each node exactly the PVs backing the
      claims of its pods, in pod order, and holds as many PVs as there are pods;
      it fails only on a claim that no PVC carries. */
  function GroupByNode(pods: seq<Pod>, pvcs: seq<Pvc>): (r: Result<NodePvs>)
    ensures r.Failure? <==> exists i :: 0 <= i < |pods| && FirstMatch(pvcs, pods[i].claimName).None?
    ensures r.Success? ==>
              && r.value.pvs.Keys == Elements(NodesOf(pods))
              && (forall n :: n in r.value.order ==> n in r.value.pvs)
              && Total(r.value.order, r.value.pvs) == |pods|
              && (forall n :: n in r.value.pvs ==> r.value.pvs[n] == ListedUnder(NodesOf(pods), BackingPvs(pods, pvcs).value, n))
              && (forall n, pv :: n in r.value.pvs && pv in r.value.pvs[n] ==>
                    exists i :: 0 <= i < |pods| && pods[i].nodeName == n && FirstMatch(pvcs, pods[i].claimName) == Some(pv))
  {
    var pvs :- BackingPvs(pods, pvcs);
    GroupedKeys(NodesOf(pods), pvs);
    GroupedLists(NodesOf(pods), pvs);
    GroupedTotal(NodesOf(pods), pvs);
    Success(Grouped(NodesOf(pods), pvs))
  }

  /** The loop that builds `node_pv_dict`, as written. */
  method BuildNodePvDict(pods: seq<Pod>, pvcs: seq<Pvc>) returns (r: Result<NodePvs>)
    ensures r == GroupAsWritten(pods, pvcs)
    ensures (forall i :: 0 <= i < |pods| ==> FirstMatch(pvcs, pods[i].claimName).Some?) ==> r == GroupByNode(pods, pvcs)
  {
    var order: seq<string> := [];
    var dict: map<string, seq<string>> := map[];
    var pv: Option<string> := None;
    ghost var picked: seq<string> := [];
    for i := 0 to |pods|
      invariant AsWrittenPvs(pods[..i], pvcs) == Success(picked) && |picked| == i
      invariant pv == (if i == 0 then None else Some(picked[i - 1]))
      invariant NodePvs(order, dict) == Grouped(NodesOf(pods[..i]), picked)
    {
      var pod := pods[i];
      var next := MatchClaim(pvcs, pod.claimName, pv);
      AsWrittenStep(pods, pvcs, i, pv, next);
      pv := next;
      if pv.None? {
        AsWrittenFailsOnlyOnFirstPod(pods, pvcs);
        return Failure(NameError);
      }
      GroupedSnoc(NodesOf(pods[..i]), picked, pod.nodeName, pv.value);
      if pod.nodeName in dict {
        dict := dict[pod.nodeName := dict[pod.nodeName] + [pv.value]];
      } else {
        order := order + [pod.nodeName];
        dict := dict[pod.nodeName := [pv.value]];
      }
      picked := picked + [pv.value];
    }
    assert pods[..|pods|] == pods;
    r := Success(NodePvs(order, dict));
    if forall i :: 0 <= i < |pods| ==> FirstMatch(pvcs, pods[i].claimName).Some? {
      AsWrittenAgreesWhenEveryClaimMatches(pods, pvcs);
    }
  }

  /** One pod of the loop as written: the `pv` after the inner loop extends the
      recorded PVs, or is still unbound at the first pod. */
  lemma AsWrittenStep(pods: seq<Pod>, pvcs: seq<Pvc>, i: nat, pv: Option<string>, next: Option<string>)
    requires i < |pods| && AsWrittenPvs(pods[..i], pvcs).Success?
    requires pv == (if i == 0 then None else Some(AsWrittenPvs(pods[..i], pvcs).value[i - 1]))
    requires FirstMatch(pvcs, pods[i].claimName).Some? ==> next == FirstMatch(pvcs, pods[i].claimName)
    requires FirstMatch(pvcs, pods[i].claimName).None? ==> next == pv
    ensures next.None? ==> i == 0 && FirstMatch(pvcs, pods[0].claimName).None?
    ensures next.Some? ==> AsWrittenPvs(pods[..i + 1], pvcs) == Success(AsWrittenPvs(pods[..i], pvcs).value + [next.value])
    ensures NodesOf(pods[..i + 1]) == NodesOf(pods[..i]) + [pods[i].nodeName]
  {
    assert pods[..i + 1][..i] == pods[..i];
    assert pods[..i + 1][i] == pods[i];
    assert NodesOf(pods[..i + 1]) == NodesOf(pods[..i]) + [pods[i].nodeName];
  }

  /** One more pod in the grouping. */
  lemma GroupedSnoc(nodes: seq<string>, values: seq<string>, node: string, pv: string)
    requires |nodes| == |values|
    ensures var d := Grouped(nodes, values);
            Grouped(nodes + [node], values + [pv])
            == if node in d.pvs then NodePvs(d.order, d.pvs[node := d.pvs[node] + [pv]])
               else NodePvs(d.order + [node], d.pvs[node := [pv]])
  {
    assert (nodes + [node])[..|nodes|] == nodes;
    assert (values + [pv])[..|values|] == values;
  }

  /** One key per node that runs a pod, each once in insertion order. */
  lemma {:induction false} GroupedKeys(nodes: seq<string>, values: seq<string>)
    requires |nodes| == |values|
    ensures Grouped(nodes, values).pvs.Keys == Elements(nodes)
    ensures Distinct(Grouped(nodes, values).order)
    ensures Elements(Grouped(nodes, values).order) == Grouped(nodes, values).pvs.Keys
  {
    if nodes != [] {
      var init := nodes[..|nodes| - 1];
      GroupedKeys(init, values[..|values| - 1]);
      assert nodes == init + [nodes[|nodes| - 1]];
    }
  }

  /** Each pod's PV is appended under its own node and nowhere else. */
  lemma {:induction false} GroupedLists(nodes: seq<string>, values: seq<string>)
    requires |nodes| == |values|
    ensures forall n :: n in Grouped(nodes, values).pvs ==> Grouped(nodes, values).pvs[n] == ListedUnder(nodes, values, n)
  {
    if nodes != [] {
      var init, initValues := nodes[..|nodes| - 1], values[..|values| - 1];
      GroupedKeys(init, initValues);
      GroupedLists(init, initValues);
    }
  }

  lemma {:induction false} TotalSnoc(order: seq<string>, node: string, m: map<string, seq<string>>)
    requires forall n :: n in order + [node] ==> n in m
    ensures Total(order + [node], m) == Total(order, m) + |m[node]|
  {
    if order != [] {
      assert (order + [node])[1..] == order[1..] + [node];
      TotalSnoc(order[1..], node, m);
    }
  }

  lemma {:induction false} TotalFrame(order: seq<string>, m: map<string, seq<string>>, node: string, v: seq<string>)
    requires node !in order && forall n :: n in order ==> n in m
    ensures Total(order, m[node := v]) == Total(order, m)
  {
    if order != [] {
      TotalFrame(order[1..], m, node, v);
    }
  }

  lemma {:induction false} TotalBump(order: seq<string>, m: map<string, seq<string>>, node: string, pv: string)
    requires node in order && Distinct(order) && forall n :: n in order ==> n in m
    ensures Total(order, m[node := m[node] + [pv]]) == Total(order, m) + 1
  {
    if order[0] == node {
      assert node !in order[1..];
      TotalFrame(order[1..], m, node, m[node] + [pv]);
    } else {
      TotalBump(order[1..], m, node, pv);
    }
  }

  /** The index of the first occurrence of `x` in `s`. */
  function FirstIndex(s: seq<string>, x: string): (k: nat)
    requires x in s
    ensures k < |s| && s[k] == x && x !in s[..k]
  {
    if s[0] == x then 0
    else
      var k := FirstIndex(s[1..], x);
      assert s[1..][..k] == s[1..k + 1];
      1 + k
  }

  /** Appending an element moves no first occurrence, and gives a new element the
      last index. */
  lemma FirstIndexSnoc(s: seq<string>, y: string, x: string)
    requires x in s + [y]
    ensures x in s ==> FirstIndex(s + [y], x) == FirstIndex(s, x)
    ensures x !in s ==> FirstIndex(s + [y], x) == |s|
  {
    var k' := FirstIndex(s + [y], x);
    if x in s {
      var k := FirstIndex(s, x);
      assert (s + [y])[..k'] == s[..k'] || k' == |s|;
    }
  }

  /** The keys are kept in the order the nodes first appear among the pods. */
  lemma {:induction false} GroupedKeyOrder(nodes: seq<string>, values: seq<string>)
    requires |nodes| == |values|
    ensures var d := Grouped(nodes, values);
            forall i :: 0 <= i < |d.order| ==> d.order[i] in nodes
    ensures var d := Grouped(nodes, values);
            forall i, j :: 0 <= i < j < |d.order| ==> FirstIndex(nodes, d.order[i]) < FirstIndex(nodes, d.order[j])
  {
    if nodes != [] {
      var init, initValues := nodes[..|nodes| - 1], values[..|values| - 1];
      var node := nodes[|nodes| - 1];
      assert nodes == init + [node];
      GroupedKeys(init, initValues);
      GroupedKeyOrder(init, initValues);
      var d0 := Grouped(init, initValues);
      var d := Grouped(nodes, values);
      forall i | 0 <= i < |d0.order| ensures FirstIndex(nodes, d0.order[i]) == FirstIndex(init, d0.order[i]) {
        FirstIndexSnoc(init, node, d0.order[i]);
      }
      if node !in d0.pvs {
        assert node !in init;
        FirstIndexSnoc(init, node, node);
        assert d.order == d0.order + [node];
      }
    }
  }

  /** The list lengths add up to the number of pods. */
  lemma {:induction false} GroupedTotal(nodes: seq<string>, values: seq<string>)
    requires |nodes| == |values|
    ensures Total(Grouped(nodes, values).order, Grouped(nodes, values).pvs) == |nodes|
  {
    if nodes != [] {
      var init, initValues := nodes[..|nodes| - 1], values[..|values| - 1];
      var node, pv := nodes[|nodes| - 1], values[|values| - 1];
      var d := Grouped(init, initValues);
      GroupedKeys(init, initValues);
      GroupedTotal(init, initValues);
      if node in d.pvs {
        TotalBump(d.order, d.pvs, node, pv);
      } else {
        TotalSnoc(d.order, node, d.pvs[node := [pv]]);
        TotalFrame(d.order, d.pvs, node, [pv]);
      }
    }
  }
}
