/** Capacity expansion with a resource deleted mid-way
    (tests/manage/z_cluster/cluster_expansion/test_delete_pod.py).

    The test object keeps one field, `newPodsInStatusRunning`, that the waiter sets,
    the test resets and forces, and the kill loop polls from another thread. The
    model keeps that field and a log of the steps the test issues against the
    cluster; the cluster's answers (the result of add_capacity, whether the wait
    for running OSD pods succeeds, whether flexible scaling is on, the health check)
    are parameters. The kill loop's reads of the field, which race with the waiter,
    are an input sequence: `flagReads[k]` is the value the k-th read sees. */
module CapacityExpansion {
  import opened Text

  const DefaultMaxIterations: nat := 30
  const OsdSelector := "app=rook-ceph-osd"
  const OsdWaitTimeout: nat := 420
  const VspherePlatform := "vsphere"
  const VsphereOsdThreshold: nat := 9
  const ExpectedWorkerNodes: nat := 6

  // ---------------------------------------------------------------------------
  // setup

  datatype SetupPlan =
    | Skip                                 // pytest.skip: OSDs already at the maximum
    | Proceed(workersToAdd: nat)           // add that many worker nodes first

  /** The skip precondition and the worker nodes to add on vSphere; `maxOsds` is
      constants.MAX_OSDS. */
  function Setup(osdPodsBefore: nat, maxOsds: nat, platform: string, workerNodes: nat): (plan: SetupPlan)
    ensures plan.Skip? <==> osdPodsBefore >= maxOsds
    ensures plan.Proceed? && plan.workersToAdd > 0 ==>
              Lower(platform) == VspherePlatform && osdPodsBefore >= VsphereOsdThreshold
              && workerNodes + plan.workersToAdd == ExpectedWorkerNodes
    ensures (plan.Proceed? && Lower(platform) == VspherePlatform && osdPodsBefore >= VsphereOsdThreshold) ==>
              workerNodes + plan.workersToAdd >= ExpectedWorkerNodes
    ensures workerNodes >= ExpectedWorkerNodes && plan.Proceed? ==> plan.workersToAdd == 0
  {
    if osdPodsBefore >= maxOsds then Skip
    else if Lower(platform) == VspherePlatform && osdPodsBefore >= VsphereOsdThreshold then
      var numOfWnodes := workerNodes;
      if numOfWnodes < ExpectedWorkerNodes then Proceed(ExpectedWorkerNodes - numOfWnodes)
      else Proceed(0)
    else Proceed(0)
  }

  /** The platform name is compared case-insensitively. */
  lemma UpperCasePlatformAddsWorkers()
    ensures Setup(12, 15, "vSphere", 4) == Proceed(2)
  {
    assert Lower("vSphere") == "vsphere";
  }

  // ---------------------------------------------------------------------------
  // wait_for_osd_pods_to_be_running: the expected pod count

  /** The OSD pods to wait for: one per device set under flexible scaling, three
      otherwise. There is no baseline term: `storagedevicesetCount` is the count
      add_capacity returns. */
  function ExpectedOsdPods(storagedevicesetCount: nat, flexibleScaling: bool): (count: nat)
    ensures flexibleScaling ==> count == storagedevicesetCount
    ensures !flexibleScaling ==> count == 3 * storagedevicesetCount
  {
    var replicaCount := if flexibleScaling then 1 else 3;
    storagedevicesetCount * replicaCount
  }

  // ---------------------------------------------------------------------------
  // kill_resource_repeatedly

  datatype Deletion = Deletion(resourceName: string, resourceId: int)

  datatype LoopExit = StoppedBySignal | Exhausted

  /** The deletions the loop issues: one per iteration, up to and including the
      first iteration whose read of the flag is true, at most `maxIterations`. */
  function KillsIssued(flagReads: seq<bool>, maxIterations: nat): (n: nat)
    requires |flagReads| >= maxIterations
    ensures n <= maxIterations
  {
    if maxIterations == 0 then 0
    else if flagReads[0] then 1
    else 1 + KillsIssued(flagReads[1..], maxIterations - 1)
  }

  /** Some read inside the budget sees the flag set. */
  predicate SignalledWithin(flagReads: seq<bool>, maxIterations: nat)
    requires |flagReads| >= maxIterations
  {
    exists k :: 0 <= k < maxIterations && flagReads[k]
  }

  /** The kill count stays within the budget, is at least one when the budget is,
      and stops exactly at the first read that sees the flag set. */
  lemma {:induction false} KillsIssuedShape(flagReads: seq<bool>, maxIterations: nat)
    requires |flagReads| >= maxIterations
    ensures var n := KillsIssued(flagReads, maxIterations);
      && n <= maxIterations
      && (maxIterations >= 1 ==> n >= 1)
      && (forall k :: 0 <= k < n - 1 ==> !flagReads[k])
      && (SignalledWithin(flagReads, maxIterations) ==> n >= 1 && flagReads[n - 1])
      && (!SignalledWithin(flagReads, maxIterations) ==> n == maxIterations)
  {
    if maxIterations > 0 && !flagReads[0] {
      var rest := flagReads[1..];
      KillsIssuedShape(rest, maxIterations - 1);
      var n := KillsIssued(flagReads, maxIterations);
      forall k | 0 <= k < n - 1 ensures !flagReads[k] {
        if k > 0 { assert flagReads[k] == rest[k - 1]; }
      }
      if SignalledWithin(flagReads, maxIterations) {
        var k :| 0 <= k < maxIterations && flagReads[k];
        assert rest[k - 1] == flagReads[k];
        assert SignalledWithin(rest, maxIterations - 1);
      }
    }
  }

  /** The flag is only ever set, never cleared, while the loop runs. */
  predicate Monotone(flagReads: seq<bool>) {
    forall i :: 0 < i < |flagReads| && flagReads[i - 1] ==> flagReads[i]
  }

  /** With a flag that is never cleared under the loop, the warning after the loop
      (issued when the read after the last iteration still sees false) implies the
      budget was used up, and a loop stopped by the signal never warns. */
  lemma WarningOnlyWhenExhausted(flagReads: seq<bool>, maxIterations: nat)
    requires |flagReads| > maxIterations && Monotone(flagReads)
    ensures var n := KillsIssued(flagReads, maxIterations);
      (!flagReads[n] ==> !SignalledWithin(flagReads, maxIterations))
  {
    KillsIssuedShape(flagReads, maxIterations);
  }

  /** With the default budget the loop never issues a 31st deletion. */
  lemma DefaultBudgetBound(flagReads: seq<bool>)
    requires |flagReads| >= DefaultMaxIterations
    ensures 1 <= KillsIssued(flagReads, DefaultMaxIterations) <= 30
  {
    KillsIssuedShape(flagReads, DefaultMaxIterations);
  }

  /** When the flag is never set (the waiter timed out and nothing else writes the
      flag) the loop issues its whole budget of deletions. */
  lemma TimeoutUsesWholeBudget(flagReads: seq<bool>, maxIterations: nat)
    requires |flagReads| >= maxIterations
    requires forall k :: 0 <= k < |flagReads| ==> !flagReads[k]
    ensures KillsIssued(flagReads, maxIterations) == maxIterations
  {
    KillsIssuedShape(flagReads, maxIterations);
  }

  // ---------------------------------------------------------------------------
  // The steps the test issues, and the flag they leave behind

  datatype Step =
    | ResetFlag                                          // new_pods_in_status_running = False
    | AddCapacity(osdSize: string)                       // storage_cluster.add_capacity
    | WaitForNewOsdPods(osdPodsBefore: nat)              // wait_for_new_osd_pods_to_come_up
    | DeleteResource(resourceName: string, resourceId: int)
    | KillRepeatedly(resourceName: string, resourceId: int, kills: nat)
    | WaitForRunning(selector: string, count: nat, timeout: nat)
    | SetFlag                                            // set by the waiter after its wait returns
    | ForceFlag                                          // set by the test at the end
    | CheckCephHealth

  predicate IsDeletion(s: Step) {
    s.DeleteResource? || s.KillRepeatedly?
  }

  /** The flag after one step. */
  function Apply(s: Step, flag: bool): bool {
    match s
    case ResetFlag => false
    case SetFlag => true
    case ForceFlag => true
    case _ => flag
  }

  /** The value of the flag after the steps, starting from `flag`. */
  function FlagAfter(steps: seq<Step>, flag: bool): bool {
    if steps == [] then flag
    else Apply(steps[|steps| - 1], FlagAfter(steps[..|steps| - 1], flag))
  }

  lemma {:induction false} FlagAfterAppend(a: seq<Step>, b: seq<Step>, flag: bool)
    ensures FlagAfter(a + b, flag) == FlagAfter(b, FlagAfter(a, flag))
  {
    if b == [] {
      assert a + b == a;
    } else {
      assert (a + b)[..|a + b| - 1] == a + b[..|b| - 1];
      FlagAfterAppend(a, b[..|b| - 1], flag);
    }
  }

  /** The steps one run of the test issues, in order. The waiter's own steps end
      the run when the wait times out: the exception skips the forced flag and the
      health check. In the repeated mode the kill loop and the wait run at the same
      time; the log lists the loop first. */
  function TrialSteps(resourceName: string, resourceId: int, killRepeatedly: bool, osdPodsBefore: nat,
                      osdSize: string, expectedPods: nat, kills: nat, waitSucceeds: bool): seq<Step>
  {
    [ResetFlag, AddCapacity(osdSize), WaitForNewOsdPods(osdPodsBefore)]
    + (if killRepeatedly then [KillRepeatedly(resourceName, resourceId, kills)]
       else [DeleteResource(resourceName, resourceId)])
    + [WaitForRunning(OsdSelector, expectedPods, OsdWaitTimeout)]
    + (if waitSucceeds then [SetFlag, ForceFlag, CheckCephHealth] else [])
  }

  /** The wait for the new OSD pods to come up comes before every deletion, in both
      modes, and after the capacity was added. */
  lemma NewOsdPodsBeforeDeletion(resourceName: string, resourceId: int, killRepeatedly: bool, osdPodsBefore: nat,
                                 osdSize: string, expectedPods: nat, kills: nat, waitSucceeds: bool)
    ensures var steps := TrialSteps(resourceName, resourceId, killRepeatedly, osdPodsBefore,
                                    osdSize, expectedPods, kills, waitSucceeds);
      && steps[1] == AddCapacity(osdSize) && steps[2] == WaitForNewOsdPods(osdPodsBefore)
      && (forall j :: 0 <= j < |steps| && IsDeletion(steps[j]) ==> j == 3)
      && (forall j :: 0 <= j < |steps| && steps[j].WaitForNewOsdPods? ==> j == 2)
      && IsDeletion(steps[3])
  {
  }

  /** The flag the run leaves is true exactly when the wait succeeded: the final
      forced write never masks a timeout, because a timeout never reaches it. */
  lemma {:induction false} ForcedFlagNeverMasksTimeout(resourceName: string, resourceId: int, killRepeatedly: bool,
                                    osdPodsBefore: nat, osdSize: string, expectedPods: nat,
                                    kills: nat, waitSucceeds: bool, flag: bool)
    ensures var steps := TrialSteps(resourceName, resourceId, killRepeatedly, osdPodsBefore,
                                    osdSize, expectedPods, kills, waitSucceeds);
      && FlagAfter(steps, flag) == waitSucceeds
      && (forall j :: 0 <= j < |steps| && steps[j] == ForceFlag ==> j > 0 && steps[j - 1] == SetFlag)
  {
    var head := [ResetFlag, AddCapacity(osdSize), WaitForNewOsdPods(osdPodsBefore)];
    var mid := (if killRepeatedly then [KillRepeatedly(resourceName, resourceId, kills)]
                else [DeleteResource(resourceName, resourceId)])
               + [WaitForRunning(OsdSelector, expectedPods, OsdWaitTimeout)];
    var tail := if waitSucceeds then [SetFlag, ForceFlag, CheckCephHealth] else [];
    var steps := TrialSteps(resourceName, resourceId, killRepeatedly, osdPodsBefore,
                            osdSize, expectedPods, kills, waitSucceeds);
    assert steps == head + mid + tail;
    FlagAfterAppend(head + mid, tail, flag);
    FlagAfterAppend(head, mid, flag);
    assert head[..2][..1] == [ResetFlag] && head[..2] == [ResetFlag, AddCapacity(osdSize)];
    assert FlagAfter([ResetFlag], flag) == false;
    assert FlagAfter(head, flag) == false;
    assert FlagAfter(mid[..1], false) == false;
    assert FlagAfter(mid, false) == false;
    if waitSucceeds {
      assert tail[..2][..1] == [SetFlag] && tail[..2] == [SetFlag, ForceFlag];
    }
  }

  /** Between the reset and the end of the run, the flag goes from false to true at
      most once before the forced write. */
  lemma SetAtMostOnce(resourceName: string, resourceId: int, killRepeatedly: bool, osdPodsBefore: nat,
                      osdSize: string, expectedPods: nat, kills: nat, waitSucceeds: bool)
    ensures var steps := TrialSteps(resourceName, resourceId, killRepeatedly, osdPodsBefore,
                                    osdSize, expectedPods, kills, waitSucceeds);
      forall i, j :: 0 <= i < j < |steps| && steps[i] == SetFlag ==> steps[j] != SetFlag
  {
  }

  datatype TrialOutcome = Passed | WaitTimedOut | HealthCheckFailed

  // ---------------------------------------------------------------------------
  // The test class

  class TestAddCapacityWithResourceDelete {
    var newPodsInStatusRunning: bool
    var steps: seq<Step>

    /** The field always holds what the logged steps leave in it. */
    ghost predicate Valid()
      reads this
    {
      newPodsInStatusRunning == FlagAfter(steps, false)
    }

    /** A fresh test object: the class attribute starts out false. */
    constructor ()
      ensures Valid() && steps == [] && !newPodsInStatusRunning
    {
      newPodsInStatusRunning := false;
      steps := [];
    }

    /** `kill_resource_repeatedly`: deletes, then reads the flag, up to
        `maxIterations` times. Returns the deletions issued, how the loop ended, and
        whether it warns that the pods did not reach Running (the read after the
        loop, `flagReads[|deletions|]`, still sees false). */
    method KillResourceRepeatedly(resourceName: string, resourceId: int, maxIterations: nat, flagReads: seq<bool>)
      returns (deletions: seq<Deletion>, exit: LoopExit, warned: bool)
      requires |flagReads| > maxIterations
      ensures |deletions| == KillsIssued(flagReads, maxIterations)
      ensures forall k :: 0 <= k < |deletions| ==> deletions[k] == Deletion(resourceName, resourceId)
      ensures exit == StoppedBySignal <==> SignalledWithin(flagReads, maxIterations)
      ensures warned <==> !flagReads[|deletions|]
    {
      var d := Deletion(resourceName, resourceId);
      deletions := [];
      exit := Exhausted;
      var i := 0;
      while i < maxIterations
        invariant 0 <= i <= maxIterations
        invariant |deletions| == i
        invariant forall k :: 0 <= k < i ==> deletions[k] == d && !flagReads[k]
        invariant KillsIssued(flagReads, maxIterations) == i + KillsIssued(flagReads[i..], maxIterations - i)
      {
        deletions := deletions + [d];
        assert flagReads[i..][1..] == flagReads[i + 1..];
        if flagReads[i] {
          exit := StoppedBySignal;
          break;
        }
        i := i + 1;
      }
      warned := !flagReads[|deletions|];
    }

    /** `wait_for_osd_pods_to_be_running`: waits for the expected OSD pod count and
        sets the flag when the wait returns; a timeout raises before the flag is set. */
    method WaitForOsdPodsToBeRunning(storagedevicesetCount: nat, flexibleScaling: bool, waitSucceeds: bool)
      returns (ok: bool)
      requires Valid()
      modifies this
      ensures Valid()
      ensures ok == waitSucceeds
      ensures steps == old(steps) + [WaitForRunning(OsdSelector, ExpectedOsdPods(storagedevicesetCount, flexibleScaling), OsdWaitTimeout)]
                                  + (if waitSucceeds then [SetFlag] else [])
      ensures newPodsInStatusRunning == (waitSucceeds || old(newPodsInStatusRunning))
    {
      var replicaCount := if flexibleScaling then 1 else 3;
      var count := storagedevicesetCount * replicaCount;
      var waitStep := WaitForRunning(OsdSelector, count, OsdWaitTimeout);
      FlagAfterAppend(steps, [waitStep], false);
      steps := steps + [waitStep];
      if !waitSucceeds {
        return false;
      }
      FlagAfterAppend(steps, [SetFlag], false);
      steps := steps + [SetFlag];
      newPodsInStatusRunning := true;
      ok := true;
    }

    /** The test up to the injection point: reset the flag, add one set of OSDs,
        wait for the new OSD pods to come up. */
    method ResetAndExpand(osdPodsBefore: nat, osdSize: string)
      requires Valid()
      modifies this
      ensures Valid() && !newPodsInStatusRunning
      ensures steps == old(steps) + [ResetFlag, AddCapacity(osdSize), WaitForNewOsdPods(osdPodsBefore)]
    {
      FlagAfterAppend(steps, [ResetFlag], false);
      steps := steps + [ResetFlag];
      newPodsInStatusRunning := false;
      FlagAfterAppend(steps, [AddCapacity(osdSize)], false);
      steps := steps + [AddCapacity(osdSize)];
      FlagAfterAppend(steps, [WaitForNewOsdPods(osdPodsBefore)], false);
      steps := steps + [WaitForNewOsdPods(osdPodsBefore)];
    }

    /** Logs a step that leaves the flag alone. */
    method Issue(step: Step)
      requires Valid() && !step.ResetFlag? && !step.SetFlag? && !step.ForceFlag?
      modifies this
      ensures Valid() && newPodsInStatusRunning == old(newPodsInStatusRunning)
      ensures steps == old(steps) + [step]
    {
      assert (steps + [step])[..|steps + [step]| - 1] == steps;
      steps := steps + [step];
    }

    /** The deletion the test injects: the kill loop in repeated mode, a single
        deletion otherwise. */
    method InjectDeletion(resourceName: string, resourceId: int, killRepeatedly: bool, flagReads: seq<bool>)
      requires Valid() && |flagReads| > DefaultMaxIterations
      modifies this
      ensures Valid() && newPodsInStatusRunning == old(newPodsInStatusRunning)
      ensures steps == old(steps) + [if killRepeatedly then KillRepeatedly(resourceName, resourceId, KillsIssued(flagReads, DefaultMaxIterations))
                                     else DeleteResource(resourceName, resourceId)]
    {
      var deletion: Step;
      if killRepeatedly {
        var deletions, _, _ := KillResourceRepeatedly(resourceName, resourceId, DefaultMaxIterations, flagReads);
        deletion := KillRepeatedly(resourceName, resourceId, |deletions|);
      } else {
        deletion := DeleteResource(resourceName, resourceId);
      }
      Issue(deletion);
    }

    /** `test_add_capacity_with_resource_delete`. `storagedevicesetCount` is what
        add_capacity returns; `flagReads` are the kill loop's reads of the flag. Only
        the waiter writes the flag after the reset, so the reads never go from true
        back to false, and none is true when the wait times out. */
    method AddCapacityWithResourceDelete(resourceName: string, resourceId: int, killRepeatedly: bool,
                                         osdPodsBefore: nat, osdSize: string, storagedevicesetCount: nat,
                                         flexibleScaling: bool, waitSucceeds: bool, healthy: bool,
                                         flagReads: seq<bool>)
      returns (outcome: TrialOutcome)
      requires Valid() && |flagReads| > DefaultMaxIterations
      requires Monotone(flagReads)
      requires !waitSucceeds ==> forall k :: 0 <= k < |flagReads| ==> !flagReads[k]
      modifies this
      ensures Valid()
      ensures steps == old(steps) + TrialSteps(resourceName, resourceId, killRepeatedly, osdPodsBefore, osdSize,
                                               ExpectedOsdPods(storagedevicesetCount, flexibleScaling),
                                               KillsIssued(flagReads, DefaultMaxIterations), waitSucceeds)
      ensures newPodsInStatusRunning == waitSucceeds
      ensures outcome == (if !waitSucceeds then WaitTimedOut else if healthy then Passed else HealthCheckFailed)
      ensures killRepeatedly && !waitSucceeds ==>
                steps[|old(steps)| + 3] == KillRepeatedly(resourceName, resourceId, DefaultMaxIterations)
    {
      ghost var start := steps;
      if !waitSucceeds {
        TimeoutUsesWholeBudget(flagReads, DefaultMaxIterations);
      }
      ResetAndExpand(osdPodsBefore, osdSize);

      InjectDeletion(resourceName, resourceId, killRepeatedly, flagReads);
      ghost var injected := steps;

      var ok := WaitForOsdPodsToBeRunning(storagedevicesetCount, flexibleScaling, waitSucceeds);
      ghost var trial := TrialSteps(resourceName, resourceId, killRepeatedly, osdPodsBefore, osdSize,
                                    ExpectedOsdPods(storagedevicesetCount, flexibleScaling),
                                    KillsIssued(flagReads, DefaultMaxIterations), waitSucceeds);
      ghost var waited := injected + [WaitForRunning(OsdSelector, ExpectedOsdPods(storagedevicesetCount, flexibleScaling), OsdWaitTimeout)];
      assert waited == start + trial[..5];
      if !ok {
        assert trial == trial[..5];
        return WaitTimedOut;
      }

      FlagAfterAppend(steps, [ForceFlag], false);
      steps := steps + [ForceFlag];
      newPodsInStatusRunning := true;
      Issue(CheckCephHealth);
      assert steps == waited + [SetFlag, ForceFlag, CheckCephHealth];
      outcome := if healthy then Passed else HealthCheckFailed;
    }
  }
}
