/** The deterministic decisions inside the Multi Cloud Gateway helper class
    (ocs_ci/ocs/resources/mcg.py). Every RPC, CLI or cluster call that feeds them
    is a parameter: the read_system reply, the object chunk mappings, the CLI's
    stdout, the phases of the NooBaa resources, the OCS version from the config. */
module Mcg {
  import opened Wrappers
  import opened Lists
  import opened Text

  // ---------------------------------------------------------------------------
  // Structured JSON values (dicts and lists as the code builds them).

  datatype Json =
    | JNull                           // Python None
    | JBool(b: bool)
    | JInt(i: int)
    | JStr(s: string)
    | JArr(items: seq<Json>)
    | JObj(fields: map<string, Json>)
    | JDumps(doc: Json)               // the string json.dumps(doc)

  /** Python truthiness: None, False, 0 and empty strings, lists and dicts are false. */
  predicate Truthy(j: Json) {
    match j
    case JNull => false
    case JBool(b) => b
    case JInt(i) => i != 0
    case JStr(s) => s != ""
    case JArr(items) => items != []
    case JObj(fields) => fields != map[]
    case JDumps(_) => true
  }

  /** `j[key]`: KeyError when a dict lacks the key, TypeError when `j` is no dict. */
  function Lookup(j: Json, key: string): (r: Result<Json>)
    ensures r.Success? <==> j.JObj? && key in j.fields
    ensures r.Success? ==> r.value == j.fields[key]
    ensures r.Failure? ==> r.error == if j.JObj? then KeyError(key) else TypeError
  {
    if !j.JObj? then Failure(TypeError)
    else if key in j.fields then Success(j.fields[key])
    else Failure(KeyError(key))
  }

  /** OCS semantic version, compared on (major, minor). */
  datatype Version = Version(major: nat, minor: nat)

  predicate Older(a: Version, b: Version) {
    a.major < b.major || (a.major == b.major && a.minor < b.minor)
  }

  const Version4_7 := Version(4, 7)
  const Version4_12 := Version(4, 12)

  // ---------------------------------------------------------------------------
  // get_architecture_path

  const CliBaseDir := "/usr/share/mcg/"

  /** `os.path.join(a, b)` on POSIX. */
  function PathJoin(a: string, b: string): (p: string)
    ensures |b| > 0 && b[0] == '/' ==> p == b
    ensures (|b| == 0 || b[0] != '/') ==> a <= p
  {
    if |b| > 0 && b[0] == '/' then b
    else if a == [] || a[|a| - 1] == '/' then a + b
    else a + "/" + b
  }

  /** Where the MCG CLI binary lives inside the image, for the host's
      `platform.system()` and `platform.machine()`. */
  method GetArchitecturePath(system: string, machine: string) returns (path: string)
    ensures system == "Linux" && machine == "x86_64" ==> path == "/usr/share/mcg/linux/noobaa-amd64"
    ensures system == "Linux" && machine == "ppc64le" ==> path == "/usr/share/mcg/linux/noobaa-ppc64le"
    ensures system == "Linux" && machine == "s390x" ==> path == "/usr/share/mcg/linux/noobaa-s390x"
    ensures (system == "Linux" && machine != "x86_64" && machine != "ppc64le" && machine != "s390x")
              ==> path == "/usr/share/mcg/linux"
    ensures system == "Darwin" ==> path == "/usr/share/mcg/macosx/noobaa"
    ensures system != "Linux" && system != "Darwin" ==> path == CliBaseDir
    ensures CliBaseDir <= path
  {
    var noobaa := "noobaa";
    path := CliBaseDir;
    if system == "Linux" {
      path := PathJoin(path, "linux");
      assert path == "/usr/share/mcg/linux";
      if machine == "x86_64" {
        path := PathJoin(path, noobaa + "-amd64");
        assert path == "/usr/share/mcg/linux/noobaa-amd64";
      } else if machine == "ppc64le" {
        path := PathJoin(path, noobaa + "-ppc64le");
        assert path == "/usr/share/mcg/linux/noobaa-ppc64le";
      } else if machine == "s390x" {
        path := PathJoin(path, noobaa + "-s390x");
        assert path == "/usr/share/mcg/linux/noobaa-s390x";
      }
    } else if system == "Darwin" {
      path := PathJoin(path, "macosx");
      assert path == "/usr/share/mcg/macosx";
      path := PathJoin(path, noobaa);
      assert path == "/usr/share/mcg/macosx/noobaa";
    }
  }

  // ---------------------------------------------------------------------------
  // check_if_mirroring_is_done: the predicate each poll evaluates

  /** A block of a fragment, reduced to `block_md.node`. */
  datatype Block = Block(node: string)
  datatype Fragment = Fragment(blocks: seq<Block>)
  datatype Chunk = Chunk(frags: seq<Fragment>)

  function BlockNodes(blocks: seq<Block>): (nodes: seq<string>)
    ensures |nodes| == |blocks|
    ensures forall i :: 0 <= i < |blocks| ==> nodes[i] == blocks[i].node
  {
    if blocks == [] then [] else [blocks[0].node] + BlockNodes(blocks[1..])
  }

  /** A chunk is mirrored when its first fragment holds at least two blocks and no
      two of them sit on the same node. */
  predicate ChunkMirrored(c: Chunk)
    requires |c.frags| > 0
  {
    var blocks := c.frags[0].blocks;
    |blocks| >= 2 && forall i, j :: 0 <= i < j < |blocks| ==> blocks[i].node != blocks[j].node
  }

  /** Every chunk has a first fragment (otherwise `frags[0]` raises IndexError). */
  predicate ChunksReadable(objects: seq<seq<Chunk>>) {
    forall o, c :: 0 <= o < |objects| && 0 <= c < |objects[o]| ==> |objects[o][c].frags| > 0
  }

  /** Every chunk of every object is mirrored. */
  predicate BucketMirrored(objects: seq<seq<Chunk>>)
    requires ChunksReadable(objects)
  {
    forall o, c :: 0 <= o < |objects| && 0 <= c < |objects[o]| ==> ChunkMirrored(objects[o][c])
  }

  /** `_check_mirroring`: `objects[o]` is the chunk list read_object_mapping returns
      for the o-th object list_objects returns. */
  method CheckMirroring(objects: seq<seq<Chunk>>) returns (r: Result<bool>)
    ensures r.Failure? <==> !ChunksReadable(objects)
    ensures r.Failure? ==> r.error == IndexError
    ensures r.Success? ==> (r.value <==> BucketMirrored(objects))
    ensures objects == [] ==> r == Success(true)
  {
    var results: seq<bool> := [];
    var o := 0;
    while o < |objects|
      invariant 0 <= o <= |objects|
      invariant forall o', c :: 0 <= o' < o && 0 <= c < |objects[o']| ==> |objects[o'][c].frags| > 0
      invariant AllTrue(results)
            <==> (forall o', c :: 0 <= o' < o && 0 <= c < |objects[o']| ==> ChunkMirrored(objects[o'][c]))
    {
      var chunks := objects[o];
      var c := 0;
      while c < |chunks|
        invariant 0 <= c <= |chunks|
        invariant forall c' :: 0 <= c' < c ==> |chunks[c'].frags| > 0
        invariant AllTrue(results)
              <==> (forall o', c' :: 0 <= o' < o && 0 <= c' < |objects[o']| ==> ChunkMirrored(objects[o'][c']))
                   && (forall c' :: 0 <= c' < c ==> ChunkMirrored(chunks[c']))
      {
        var chunk := chunks[c];
        if |chunk.frags| == 0 {
          return Failure(IndexError);
        }
        var mirrorBlocks := chunk.frags[0].blocks;
        var mirrorNodes := BlockNodes(mirrorBlocks);
        DistinctIffSetKeepsLength(mirrorNodes);
        var mirrored := 2 <= |mirrorBlocks| && |mirrorBlocks| == |Elements(mirrorNodes)|;
        assert mirrored <==> ChunkMirrored(chunk);
        AllTrueSnoc(results, mirrored);
        results := results + [mirrored];
        c := c + 1;
      }
      o := o + 1;
    }
    r := Success(AllTrue(results));
  }

  // ---------------------------------------------------------------------------
  // get_bucket_info

  /** One entry of read_system's "buckets" list. */
  datatype BucketInfo = BucketInfo(name: string, fields: map<string, Json>)

  /** The first bucket named `bucketName`, or None when there is none. */
  function GetBucketInfo(buckets: seq<BucketInfo>, bucketName: string): (r: Option<BucketInfo>)
    ensures r.None? <==> forall i :: 0 <= i < |buckets| ==> buckets[i].name != bucketName
    ensures r.Some? ==> exists i :: 0 <= i < |buckets| && buckets[i] == r.value
                          && r.value.name == bucketName
                          && forall j :: 0 <= j < i ==> buckets[j].name != bucketName
  {
    if buckets == [] then None
    else if buckets[0].name == bucketName then Some(buckets[0])
    else
      var r := GetBucketInfo(buckets[1..], bucketName);
      assert r.Some? ==> exists i :: 1 <= i < |buckets| && buckets[i] == r.value
                          && forall j :: 0 <= j < i ==> buckets[j].name != bucketName by {
        if r.Some? {
          var i :| 0 <= i < |buckets[1..]| && buckets[1..][i] == r.value
                   && r.value.name == bucketName
                   && forall j :: 0 <= j < i ==> buckets[1..][j].name != bucketName;
          assert buckets[i + 1] == r.value;
          forall j | 0 <= j < i + 1 ensures buckets[j].name != bucketName {
            if j > 0 { assert buckets[j] == buckets[1..][j - 1]; }
          }
        }
      }
      r
  }

  // ---------------------------------------------------------------------------
  // check_backingstore_state: the predicate each poll evaluates

  /** One entry of read_system's "pools" list. */
  datatype Pool = Pool(name: string, mode: string)

  /** A pool answers for the backing store when its name occurs inside the backing
      store's name (containment, not equality) and its mode is the desired state. */
  predicate PoolInState(p: Pool, backingstoreName: string, desiredState: string) {
    IsSubstring(p.name, backingstoreName) && p.mode == desiredState
  }

  predicate StateReached(pools: seq<Pool>, backingstoreName: string, desiredState: string) {
    exists i :: 0 <= i < |pools| && PoolInState(pools[i], backingstoreName, desiredState)
  }

  /** `_check_state`: scans the pools in order and stops at the first that answers. */
  method CheckState(pools: seq<Pool>, backingstoreName: string, desiredState: string)
    returns (reached: bool)
    ensures reached <==> StateReached(pools, backingstoreName, desiredState)
  {
    var i := 0;
    while i < |pools|
      invariant 0 <= i <= |pools|
      invariant forall j :: 0 <= j < i ==> !PoolInState(pools[j], backingstoreName, desiredState)
    {
      if IsSubstring(pools[i].name, backingstoreName) {
        var currentState := pools[i].mode;
        if currentState == desiredState {
          return true;
        }
      }
      i := i + 1;
    }
    return false;
  }

  /** A pool whose name is only a prefix of the backing store's name still answers. */
  lemma PrefixNamedPoolAnswers(pools: seq<Pool>, i: nat, suffix: string, desiredState: string)
    requires i < |pools| && pools[i].mode == desiredState
    ensures StateReached(pools, pools[i].name + suffix, desiredState)
  {
    var name := pools[i].name;
    assert (name + suffix)[0..|name|] == name;
    assert OccursAt(name, name + suffix, 0);
    assert PoolInState(pools[i], name + suffix, desiredState);
  }

  /** A pool with an empty name answers for every backing store. */
  lemma EmptyNamedPoolAnswersAll(pools: seq<Pool>, i: nat, backingstoreName: string)
    requires i < |pools| && pools[i].name == ""
    ensures StateReached(pools, backingstoreName, pools[i].mode)
  {
    assert OccursAt("", backingstoreName, 0);
    assert PoolInState(pools[i], backingstoreName, pools[i].mode);
  }

  /** A pool that answers by name but is in another mode decides nothing. */
  lemma OtherModeIsSkipped(p: Pool, rest: seq<Pool>, backingstoreName: string, desiredState: string)
    requires p.mode != desiredState
    ensures StateReached([p] + rest, backingstoreName, desiredState)
        <==> StateReached(rest, backingstoreName, desiredState)
  {
    var all := [p] + rest;
    if StateReached(all, backingstoreName, desiredState) {
      var i :| 0 <= i < |all| && PoolInState(all[i], backingstoreName, desiredState);
      assert i > 0 && all[i] == rest[i - 1];
    }
    if StateReached(rest, backingstoreName, desiredState) {
      var i :| 0 <= i < |rest| && PoolInState(rest[i], backingstoreName, desiredState);
      assert all[i + 1] == rest[i];
    }
  }

  // ---------------------------------------------------------------------------
  // oc_create_bucketclass

  /** A backing store object, reduced to the `.name` the code reads. */
  datatype BackingStore = BackingStore(name: string)

  function StoreNames(stores: seq<BackingStore>): (names: seq<string>)
    ensures |names| == |stores|
    ensures forall i :: 0 <= i < |stores| ==> names[i] == stores[i].name
  {
    if stores == [] then [] else [stores[0].name] + StoreNames(stores[1..])
  }

  function NameList(names: seq<string>): (r: seq<Json>)
    ensures |r| == |names|
    ensures forall i :: 0 <= i < |names| ==> r[i] == JStr(names[i])
  {
    if names == [] then [] else [JStr(names[0])] + NameList(names[1..])
  }

  const NamespacePolicySingle := "Single"
  const NamespacePolicyMulti := "Multi"
  const NamespacePolicyCache := "Cache"

  /** The bucket-class template has a metadata dict to write the name into. */
  predicate TemplateUsable(template: map<string, Json>) {
    "metadata" in template && template["metadata"].JObj?
  }

  /** A namespace policy that has every key its type makes the code read. */
  predicate NamespacePolicyComplete(ns: Json) {
    && ns.JObj?
    && "type" in ns.fields
    && (ns.fields["type"] == JStr(NamespacePolicySingle) ==> "write_resource" in ns.fields)
    && (ns.fields["type"] == JStr(NamespacePolicyMulti) ==>
          "write_resource" in ns.fields && "read_resources" in ns.fields)
    && (ns.fields["type"] == JStr(NamespacePolicyCache) ==> "cache" in ns.fields)
  }

  predicate NamespaceType(ns: Json, t: string) {
    Truthy(ns) && ns.JObj? && "type" in ns.fields && ns.fields["type"] == JStr(t)
  }

  /** The one-tier placement policy listing the backing stores in input order. */
  function OneTierPlacement(names: seq<string>, placement: Json): Json {
    JObj(map["tiers" := JArr([JObj(map["backingStores" := JArr(NameList(names)),
                                         "placement" := placement])])])
  }

  /** The replication policy as stored from 4.12 on: wrapped under "rules". */
  function RulesWrapped(policy: Json, ocsVersion: Version): Json {
    if Older(ocsVersion, Version4_12) then policy else JObj(map["rules" := policy])
  }

  /** Builds the bucket-class document: the template with the name and namespace
      written into its metadata and a fresh spec. `backingstores == None` and
      `placementPolicy == JNull` stand for None; a None and an empty namespace or
      replication policy behave alike, both being false. */
  method OcCreateBucketclass(template: map<string, Json>, name: string, namespace: string,
                             backingstores: Option<seq<BackingStore>>, placementPolicy: Json,
                             namespacePolicy: Json, replicationPolicy: Json, ocsVersion: Version)
    returns (r: Result<map<string, Json>>)
    ensures r.Failure? <==> !TemplateUsable(template)
                            || (Truthy(namespacePolicy) && !NamespacePolicyComplete(namespacePolicy))
    ensures "metadata" !in template ==> r == Failure(KeyError("metadata"))
    ensures "metadata" in template && !template["metadata"].JObj? ==> r == Failure(TypeError)
    ensures TemplateUsable(template) && Truthy(namespacePolicy) && !namespacePolicy.JObj? ==> r == Failure(TypeError)
    ensures (TemplateUsable(template) && Truthy(namespacePolicy) && namespacePolicy.JObj?
             && "type" !in namespacePolicy.fields) ==> r == Failure(KeyError("type"))
    ensures TemplateUsable(template) && namespacePolicy.JObj? && r.Failure? ==> r.error.KeyError?
    ensures r.Success? ==>
      && "metadata" in r.value && "spec" in r.value && r.value["spec"].JObj?
      && r.value["metadata"] == JObj(template["metadata"].fields["name" := JStr(name)]["namespace" := JStr(namespace)])
      && (forall k :: k in template && k != "metadata" && k != "spec" ==> k in r.value && r.value[k] == template[k])
      && (forall k :: k in r.value ==> k in template || k == "spec")
    ensures r.Success? ==>
      var spec := r.value["spec"].fields;
      && spec.Keys <= {"placementPolicy", "namespacePolicy", "replicationPolicy"}
      // placement
      && ("placementPolicy" in spec <==> (backingstores.Some? && placementPolicy != JNull)
                                         || NamespaceType(namespacePolicy, NamespacePolicyCache))
      && (NamespaceType(namespacePolicy, NamespacePolicyCache) ==> spec["placementPolicy"] == placementPolicy)
      && ((!NamespaceType(namespacePolicy, NamespacePolicyCache) && backingstores.Some? && placementPolicy != JNull)
            ==> spec["placementPolicy"] == OneTierPlacement(StoreNames(backingstores.value), placementPolicy))
      // namespace
      && ("namespacePolicy" in spec <==> Truthy(namespacePolicy))
      && (Truthy(namespacePolicy) ==>
            var t := namespacePolicy.fields["type"];
            var ns := namespacePolicy.fields;
            spec["namespacePolicy"] == JObj(
              if t == JStr(NamespacePolicySingle) then
                map["type" := t, "single" := JObj(map["resource" := ns["write_resource"]])]
              else if t == JStr(NamespacePolicyMulti) then
                map["type" := t, "multi" := JObj(map["writeResource" := ns["write_resource"],
                                                     "readResources" := ns["read_resources"]])]
              else if t == JStr(NamespacePolicyCache) then
                map["type" := t, "cache" := ns["cache"]]
              else map["type" := t]))
      // replication
      && ("replicationPolicy" in spec <==> Truthy(replicationPolicy))
      && (Truthy(replicationPolicy) ==> spec["replicationPolicy"] == JDumps(RulesWrapped(replicationPolicy, ocsVersion)))
  {
    if "metadata" !in template {
      return Failure(KeyError("metadata"));
    }
    var metadata := template["metadata"];
    if !metadata.JObj? {
      return Failure(TypeError);
    }
    var bcData := template["metadata" := JObj(metadata.fields["name" := JStr(name)]["namespace" := JStr(namespace)])];
    var spec: map<string, Json> := map[];

    if backingstores.Some? && placementPolicy != JNull {
      var tiers: map<string, Json> := map[];
      tiers := tiers["backingStores" := JArr(NameList(StoreNames(backingstores.value)))];
      tiers := tiers["placement" := placementPolicy];
      spec := spec["placementPolicy" := JObj(map["tiers" := JArr([JObj(tiers)])])];
    }

    if Truthy(namespacePolicy) {
      var nsPolicyType :- Lookup(namespacePolicy, "type");
      var nsSpec: map<string, Json> := map["type" := nsPolicyType];
      if nsPolicyType == JStr(NamespacePolicySingle) {
        var writeResource :- Lookup(namespacePolicy, "write_resource");
        nsSpec := nsSpec["single" := JObj(map["resource" := writeResource])];
      } else if nsPolicyType == JStr(NamespacePolicyMulti) {
        var writeResource :- Lookup(namespacePolicy, "write_resource");
        var readResources :- Lookup(namespacePolicy, "read_resources");
        nsSpec := nsSpec["multi" := JObj(map["writeResource" := writeResource, "readResources" := readResources])];
      } else if nsPolicyType == JStr(NamespacePolicyCache) {
        spec := spec["placementPolicy" := placementPolicy];
        var cache :- Lookup(namespacePolicy, "cache");
        nsSpec := nsSpec["cache" := cache];
      }
      spec := spec["namespacePolicy" := JObj(nsSpec)];
    }

    if Truthy(replicationPolicy) {
      // setdefault: the spec was reset above, so the key is always new here
      assert "replicationPolicy" !in spec;
      if "replicationPolicy" !in spec {
        spec := spec["replicationPolicy" := JDumps(RulesWrapped(replicationPolicy, ocsVersion))];
      }
    }

    bcData := bcData["spec" := JObj(spec)];
    return Success(bcData);
  }

  // ---------------------------------------------------------------------------
  // cli_create_bucketclass

  /** The CLI arguments for `bucketclass create` and the document written to the
      replication-policy file (`policyFileName` is that temporary file's name). The
      namespace policy is accepted but unused by the source. */
  method CliCreateBucketclass(name: string, backingstores: seq<BackingStore>, placementPolicy: string,
                              replicationPolicy: Json, ocsVersion: Version,
                              placementBucketclass: string, policyFileName: string)
    returns (command: string, policyFile: Json)
    ensures command ==
      "bucketclass create "
      + (if Older(ocsVersion, Version4_7) then "" else placementBucketclass + " ")
      + name
      + " --backingstores " + JoinWith(StoreNames(backingstores), ",")
      + " --placement " + placementPolicy
      + (if Truthy(replicationPolicy) || (replicationPolicy != JNull && !Older(ocsVersion, Version4_12))
         then " --replication-policy " + policyFileName else "")
    ensures policyFile == JDumps(if replicationPolicy != JNull then RulesWrapped(replicationPolicy, ocsVersion) else JNull)
  {
    var backingstoreNameList := StoreNames(backingstores);
    var backingstoresArg := " --backingstores " + JoinWith(backingstoreNameList, ",");
    var placementArg := " --placement " + placementPolicy;
    var placementType := if !Older(ocsVersion, Version4_7) then placementBucketclass + " " else "";
    var policy := replicationPolicy;
    if policy != JNull && !Older(ocsVersion, Version4_12) {
      policy := JObj(map["rules" := policy]);
    }
    policyFile := JDumps(policy);
    assert "rules" in map["rules" := replicationPolicy];
    var replicationArg := if Truthy(policy) then " --replication-policy " + policyFileName else "";
    command := "bucketclass create " + placementType + name + backingstoresArg + placementArg + replicationArg;
    assert command == "bucketclass create " + placementType + name
      + " --backingstores " + JoinWith(backingstoreNameList, ",")
      + " --placement " + placementPolicy + replicationArg;
  }

  /** The backing stores named on the command line can be read back by splitting the
      argument at commas, provided no name contains a comma. */
  lemma BackingstoresArgumentRoundTrip(backingstores: seq<BackingStore>)
    requires |backingstores| >= 1
    requires forall i :: 0 <= i < |backingstores| ==> Avoids(backingstores[i].name, {','})
    ensures SplitOn(JoinWith(StoreNames(backingstores), ","), {','}) == StoreNames(backingstores)
  {
    SplitJoin(StoreNames(backingstores), ',', {','});
  }

  // ---------------------------------------------------------------------------
  // cli_get_all_bucket_names

  /** `stdout.split("\n")[1:-1]`: drops the header line and the piece after the last newline. */
  function ObcRows(stdout: string): (rows: seq<string>)
    ensures forall k :: 0 <= k < |rows| ==> Avoids(rows[k], {'\n'})
    ensures Avoids(stdout, {'\n'}) ==> rows == []
    ensures var lines := SplitOn(stdout, {'\n'});
            |lines| >= 2 ==> stdout == JoinWith([lines[0]] + rows + [lines[|lines| - 1]], "\n")
  {
    var lines := SplitOn(stdout, {'\n'});
    SplitOnWithout(stdout, {'\n'});
    JoinSplit(stdout, '\n');
    if |lines| >= 2 then
      assert [lines[0]] + lines[1..|lines| - 1] + [lines[|lines| - 1]] == lines;
      lines[1..|lines| - 1]
    else []
  }

  /** Taking the rows of a header, some lines and a trailing newline gives back
      those lines, whatever the header. */
  lemma ObcRowsRoundTrip(header: string, lines: seq<string>)
    requires Avoids(header, {'\n'})
    requires forall k :: 0 <= k < |lines| ==> Avoids(lines[k], {'\n'})
    ensures ObcRows(JoinWith([header] + lines, "\n") + "\n") == lines
  {
    var all := [header] + lines + [""];
    var stdout := JoinWith([header] + lines, "\n") + "\n";
    JoinSnoc([header] + lines, "", "\n");
    assert stdout + "" == stdout;
    forall k | 0 <= k < |all| ensures Avoids(all[k], {'\n'}) {
      if 0 < k < |all| - 1 { assert all[k] == lines[k - 1]; }
    }
    SplitJoin(all, '\n', {'\n'});
    assert SplitOn(stdout, {'\n'}) == all;
    assert all[1..|all| - 1] == lines;
  }

  /** `{row.split()[1] for row in rows}`: IndexError when a row has fewer than two fields. */
  function BucketNamesOf(rows: seq<string>): (r: Result<set<string>>)
    ensures r.Success? <==> forall k :: 0 <= k < |rows| ==> |Fields(rows[k])| >= 2
    ensures r.Failure? ==> r.error == IndexError
    ensures r.Success? ==> forall b :: b in r.value <==>
              exists k :: 0 <= k < |rows| && |Fields(rows[k])| >= 2 && Fields(rows[k])[1] == b
  {
    if rows == [] then Success({})
    else
      var fields := Fields(rows[0]);
      if |fields| < 2 then Failure(IndexError)
      else
        var rest := BucketNamesOf(rows[1..]);
        if rest.Failure? then
          assert exists k :: 0 <= k < |rows[1..]| && |Fields(rows[1..][k])| < 2;
          rest
        else
          var r := {fields[1]} + rest.value;
          assert forall b :: b in r <==>
              exists k :: 0 <= k < |rows| && |Fields(rows[k])| >= 2 && Fields(rows[k])[1] == b by {
            forall b ensures b in r ==> exists k :: 0 <= k < |rows| && |Fields(rows[k])| >= 2 && Fields(rows[k])[1] == b {
              if b in rest.value && b != fields[1] {
                var k :| 0 <= k < |rows[1..]| && |Fields(rows[1..][k])| >= 2 && Fields(rows[1..][k])[1] == b;
                assert rows[k + 1] == rows[1..][k];
              }
            }
            forall b, k | 0 <= k < |rows| && |Fields(rows[k])| >= 2 && Fields(rows[k])[1] == b ensures b in r {
              if k > 0 { assert rows[k] == rows[1..][k - 1]; }
            }
          }
          Success(r)
  }

  /** The bucket names in `obc list` output: the second column of every data row. */
  function CliGetAllBucketNames(stdout: string): (r: Result<set<string>>)
    ensures r.Success? ==> forall b :: b in r.value ==> b != "" && Avoids(b, Whitespace)
  {
    var r := BucketNamesOf(ObcRows(stdout));
    assert r.Success? ==> forall b :: b in r.value ==> b != "" && Avoids(b, Whitespace) by {
      if r.Success? {
        forall b | b in r.value ensures b != "" && Avoids(b, Whitespace) {
          var rows := ObcRows(stdout);
          var k :| 0 <= k < |rows| && |Fields(rows[k])| >= 2 && Fields(rows[k])[1] == b;
        }
      }
    }
    r
  }

  /** A table as the CLI prints it: a header line, then one line per row with the
      columns separated by spaces, each line ending in a newline. */
  function RenderObcTable(header: string, table: seq<seq<string>>): string {
    JoinWith([header] + seq(|table|, i requires 0 <= i < |table| => JoinWith(table[i], " ")), "\n") + "\n"
  }

  /** A line with columns that avoid some separators, joined by a character outside
      those separators, still avoids them. */
  lemma {:induction false} JoinAvoids(xs: seq<string>, sep: char, seps: set<char>)
    requires sep !in seps
    requires forall k :: 0 <= k < |xs| ==> Avoids(xs[k], seps)
    ensures Avoids(JoinWith(xs, [sep]), seps)
  {
    if |xs| > 1 {
      JoinAvoids(xs[1..], sep, seps);
    }
  }

  /** The lines of a printed table between the header and the final newline are
      its rows, and splitting a row at whitespace gives back its columns. */
  lemma RenderedRows(header: string, table: seq<seq<string>>)
    requires Avoids(header, {'\n'})
    requires forall i, j :: 0 <= i < |table| && 0 <= j < |table[i]|
               ==> table[i][j] != "" && Avoids(table[i][j], Whitespace)
    requires forall i :: 0 <= i < |table| ==> |table[i]| >= 1
    ensures |ObcRows(RenderObcTable(header, table))| == |table|
    ensures forall i :: 0 <= i < |table| ==> Fields(ObcRows(RenderObcTable(header, table))[i]) == table[i]
  {
    var rows := seq(|table|, i requires 0 <= i < |table| => JoinWith(table[i], " "));
    forall i | 0 <= i < |table| ensures Avoids(rows[i], {'\n'}) && Fields(rows[i]) == table[i] {
      JoinAvoids(table[i], ' ', {'\n'});
      FieldsOfJoinedColumns(table[i]);
    }
    ObcRowsRoundTrip(header, rows);
  }

  /** Parsing undoes printing: the names parsed back from a printed table are the
      second column of its rows, whatever the header. */
  lemma ObcListRoundTrip(header: string, table: seq<seq<string>>)
    requires Avoids(header, {'\n'})
    requires forall i :: 0 <= i < |table| ==> |table[i]| >= 2
    requires forall i, j :: 0 <= i < |table| && 0 <= j < |table[i]|
               ==> table[i][j] != "" && Avoids(table[i][j], Whitespace)
    ensures CliGetAllBucketNames(RenderObcTable(header, table))
         == Success(set i | 0 <= i < |table| :: table[i][1])
  {
    RenderedRows(header, table);
    var rows := ObcRows(RenderObcTable(header, table));
    var names := BucketNamesOf(rows);
    assert names.Success?;
    assert names.value == set i | 0 <= i < |table| :: table[i][1] by {
      forall b ensures b in names.value <==> b in set i | 0 <= i < |table| :: table[i][1] {
        if b in names.value {
          var k :| 0 <= k < |rows| && |Fields(rows[k])| >= 2 && Fields(rows[k])[1] == b;
          assert table[k][1] == b;
        }
        if b in set i | 0 <= i < |table| :: table[i][1] {
          var k :| 0 <= k < |table| && table[k][1] == b;
          assert Fields(rows[k])[1] == b;
        }
      }
    }
  }

  // ---------------------------------------------------------------------------
  // status

  const StatusReady := "Ready"

  /** The chained comparison of the NooBaa, default backing store and default bucket
      class phases against "Ready". A missing phase raises KeyError, but only once
      the comparison gets that far: Python stops at the first unequal pair. */
  function Status(noobaaPhase: Option<string>, backingstorePhase: Option<string>,
                  bucketclassPhase: Option<string>): (r: Result<bool>)
    ensures r == Success(true) <==> noobaaPhase == Some(StatusReady) && backingstorePhase == Some(StatusReady)
                                    && bucketclassPhase == Some(StatusReady)
    ensures r.Failure? ==> r.error == KeyError("phase")
    ensures r.Failure? <==> noobaaPhase.None? || backingstorePhase.None?
                            || (noobaaPhase == backingstorePhase && bucketclassPhase.None?)
    ensures noobaaPhase.Some? && backingstorePhase.Some? && bucketclassPhase.Some? ==> r.Success?
    ensures noobaaPhase.Some? && backingstorePhase.Some? && noobaaPhase != backingstorePhase ==> r == Success(false)
  {
    if noobaaPhase.None? || backingstorePhase.None? then Failure(KeyError("phase"))
    else if noobaaPhase.value != backingstorePhase.value then Success(false)
    else if bucketclassPhase.None? then Failure(KeyError("phase"))
    else if backingstorePhase.value != bucketclassPhase.value then Success(false)
    else Success(bucketclassPhase.value == StatusReady)
  }
}
