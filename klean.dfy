/** The cleaners of Klean.go, the earlier version of the tool: shorter
    tables, no ConfigMap filter, no dotted paths in cleanSpec, and a
    cleanKubernetesObject that overwrites the namespace instead of deleting
    it. As in the later version, a Go function that edits a map in place
    becomes a method that returns the new contents of the map. */
module Klean {
  import opened Tree
  import opened Paths
  import opened Edits
  import opened Workloads
  import opened Runtime

  /** metadataFieldsToRemove: nine fields; labels and namespace are kept. */
  const MetadataFieldsToRemove: seq<string> := [
    "creationTimestamp",
    "generation",
    "resourceVersion",
    "selfLink",
    "uid",
    "managedFields",
    "ownerReferences",
    "finalizers",
    "generateName"
  ]

  /** runtimeFieldsToRemove, as segments: the ten common paths. */
  function RuntimeFieldPaths(): (paths: seq<seq<string>>)
    ensures |paths| == 10 && AllNonEmpty(paths) && NoDots(paths)
  {
    CommonRuntimePathsWellFormed();
    CommonRuntimePaths
  }

  /** runtimeFieldsToRemove, the ten dotted strings. */
  function RuntimeFieldsToRemove(): (table: seq<string>)
    ensures |table| == 10 && SplitAll(table) == RuntimeFieldPaths()
  {
    SplitAllJoinAll(RuntimeFieldPaths());
    JoinAll(RuntimeFieldPaths())
  }

  /** The keys removeRuntimeFields can delete: the last segment of each path. */
  ghost function RuntimeLeaves(): set<string>
  {
    Leaves(RuntimeFieldPaths())
  }

  /** The deletions of cleanDeploymentSpec; "selector" is not among them. */
  const DeploymentFieldsToRemove: seq<string> := [
    "replicas",
    "paused",
    "progressDeadlineSeconds",
    "revisionHistoryLimit",
    "strategy"
  ]

  /** The deletions of cleanContainerSpec; "ports" and "resources" are not
      among them. */
  const ContainerFieldsToRemove: seq<string> := [
    "terminationMessagePath",
    "terminationMessagePolicy",
    "imagePullPolicy",
    "securityContext",
    "livenessProbe",
    "readinessProbe",
    "startupProbe"
  ]

  // ---------------------------------------------------------------- metadata

  /** What cleanMetadata promises: none of the nine fields is left,
      annotations are filtered (and dropped once empty), every other entry
      is unchanged. */
  ghost predicate MetadataCleaned(out: Dict, md: Dict) {
    && (forall k :: k in MetadataFieldsToRemove ==> k !in out)
    && EntryFiltered(out, md, "annotations", AnnotationPrefixesToRemove)
    && (forall k :: k !in MetadataFieldsToRemove && k != "annotations" ==> (k in out <==> k in md))
    && (forall k :: k !in MetadataFieldsToRemove && k != "annotations" && k in out ==> out[k] == md[k])
  }

  lemma MetadataFieldsFacts()
    ensures "annotations" !in MetadataFieldsToRemove && "metadata" !in MetadataFieldsToRemove
    ensures "labels" !in MetadataFieldsToRemove && "namespace" !in MetadataFieldsToRemove
  {
  }

  /** cleanMetadata: the nine deletions, then the annotations block, then the
      deletion of a key named "metadata" from a map that is already empty. */
  method CleanMetadata(md: Dict) returns (r: Dict)
    ensures MetadataCleaned(r, md)
    ensures Within(VMap(r), VMap(md))
  {
    var a := DeleteKeys(md, MetadataFieldsToRemove);
    MetadataFieldsFacts();
    assert GetMap(a, "annotations") == GetMap(md, "annotations");
    r := CleanAnnotationsEntry(a);
    if |r| == 0 {
      r := r - {"metadata"};
    }
    WithinTransitive(VMap(r), VMap(a), VMap(md));
  }

  /** Labels and namespace come out of cleanMetadata as they went in. */
  lemma LabelsAndNamespaceKept(out: Dict, md: Dict)
    requires MetadataCleaned(out, md)
    ensures "labels" in out <==> "labels" in md
    ensures "labels" in md ==> out["labels"] == md["labels"]
    ensures "namespace" in out <==> "namespace" in md
    ensures "namespace" in md ==> out["namespace"] == md["namespace"]
  {
    MetadataFieldsFacts();
  }

  /** The last step of cleanMetadata never removes an entry: a metadata map
      that has its own "metadata" entry keeps it. */
  lemma MetadataKeyNeverDeleted(out: Dict, md: Dict)
    requires MetadataCleaned(out, md)
    requires "metadata" in md
    ensures "metadata" in out && out["metadata"] == md["metadata"]
  {
    MetadataFieldsFacts();
  }

  // -------------------------------------------------------------------- spec

  /** The template block of cleanSpec: when template and template.metadata
      are maps, the metadata is cleaned by cleanMetadata in place and kept
      even when that leaves it empty; nothing else of the spec changes. */
  ghost predicate TemplateMetadataCleaned(out: Dict, spec: Dict) {
    match GetMap(spec, "template")
    case Some(t) =>
      && GetMap(out, "template").Some?
      && var t2 := GetMap(out, "template").value;
         && SameExcept(t2, t, {"metadata"})
         && (match GetMap(t, "metadata")
             case Some(tm) => GetMap(t2, "metadata").Some? && MetadataCleaned(GetMap(t2, "metadata").value, tm)
             case None => t2 == t)
    case None => ("template" in out <==> "template" in spec) && ("template" in spec ==> out["template"] == spec["template"])
  }

  /** The template block at the end of cleanSpec. */
  method CleanSpecTemplate(spec: Dict) returns (r: Dict)
    ensures SameExcept(r, spec, {"template"}) && TemplateMetadataCleaned(r, spec)
    ensures Within(VMap(r), VMap(spec))
  {
    r := spec;
    match GetMap(spec, "template") {
      case Some(t) =>
        match GetMap(t, "metadata") {
          case Some(tm) =>
            var cleaned := CleanMetadata(tm);
            var t2 := t["metadata" := VMap(cleaned)];
            WithinUpdate(t, "metadata", VMap(cleaned));
            WithinUpdate(spec, "template", VMap(t2));
            r := spec["template" := VMap(t2)];
          case None =>
        }
      case None =>
    }
  }

  /** What cleanSpec promises of the spec map: every field of
      specFieldsToRemove goes from the top level, the template's metadata is
      cleaned, every other entry is unchanged. */
  ghost predicate SpecCleaned(out: Dict, spec: Dict) {
    && (forall k :: k in out <==> k in spec && k !in SpecFieldsToRemove)
    && (forall k :: k in out && k != "template" ==> out[k] == spec[k])
    && TemplateMetadataCleaned(out, spec)
  }

  /** cleanSpec. */
  method CleanSpec(spec: Dict) returns (r: Dict)
    ensures SpecCleaned(r, spec)
    ensures Within(VMap(r), VMap(spec))
  {
    var deleted := DeleteKeys(spec, SpecFieldsToRemove);
    assert "template" !in SpecFieldsToRemove;
    assert GetMap(deleted, "template") == GetMap(spec, "template");
    r := CleanSpecTemplate(deleted);
    WithinTransitive(VMap(r), VMap(deleted), VMap(spec));
  }

  /** cleanSpec leaves template.spec alone: where it is a map it comes out
      exactly as it went in. */
  lemma TemplateSpecUntouched(out: Dict, spec: Dict)
    requires TemplateMetadataCleaned(out, spec)
    requires Walkable(spec, ["template", "spec"])
    ensures Walkable(out, ["template", "spec"])
    ensures Descend(out, ["template", "spec"]) == Descend(spec, ["template", "spec"])
  {
    var t := spec["template"].entries;
    var t2 := out["template"].entries;
    assert GetMap(spec, "template") == Some(t);
    assert t2["spec"] == t["spec"];
    assert ["template", "spec"][1..] == ["spec"] && ["spec"][1..] == [];
  }

  // -------------------------------------------------------------- workloads

  /** cleanContainerSpec: exactly the seven fields go; ports and resources
      stay as they were. */
  method CleanContainerSpec(container: Dict) returns (r: Dict)
    ensures KeysDeleted(r, container, ContainerFieldsToRemove)
    ensures "ports" in container ==> "ports" in r && r["ports"] == container["ports"]
    ensures "resources" in container ==> "resources" in r && r["resources"] == container["resources"]
    ensures Within(VMap(r), VMap(container))
  {
    r := DeleteKeys(container, ContainerFieldsToRemove);
    assert "ports" !in ContainerFieldsToRemove && "resources" !in ContainerFieldsToRemove;
  }

  /** The container loop of cleanPodTemplateSpec. */
  method CleanContainers(items: seq<Value>) returns (out: seq<Value>)
    ensures ContainersCleaned(out, items, ContainerFieldsToRemove)
    ensures Within(VList(out), VList(items))
  {
    out := items;
    for i := 0 to |items|
      invariant |out| == |items|
      invariant forall j :: i <= j < |items| ==> out[j] == items[j]
      invariant forall j :: 0 <= j < i ==>
        if items[j].VMap? then out[j].VMap? && KeysDeleted(out[j].entries, items[j].entries, ContainerFieldsToRemove)
          && Within(out[j], items[j])
        else out[j] == items[j]
    {
      match items[i] {
        case VMap(c) =>
          var cleaned := CleanContainerSpec(c);
          out := out[i := VMap(cleaned)];
        case _ =>
      }
    }
    assert forall j :: 0 <= j < |out| ==> Within(out[j], items[j]);
  }

  /** cleanPodTemplateSpec: acts only when template.spec is a map; the ten
      pod fields go and every map element of the containers list is cleaned. */
  method CleanPodTemplateSpec(template: Dict) returns (r: Dict)
    ensures PodTemplateCleaned(r, template, ContainerFieldsToRemove)
    ensures Within(VMap(r), VMap(template))
  {
    r := template;
    match GetMap(template, "spec") {
      case Some(spec) =>
        var containers: Option<seq<Value>> := None;
        match GetList(spec, "containers") {
          case Some(cs) =>
            var cleaned := CleanContainers(cs);
            containers := Some(cleaned);
          case None =>
        }
        var s := CleanPodSpec(spec, containers, ContainerFieldsToRemove);
        r := template["spec" := VMap(s)];
        WithinUpdate(template, "spec", VMap(s));
      case None =>
    }
  }

  /** What cleanDeploymentSpec promises: the five fields are gone, a
      template map is cleaned by cleanPodTemplateSpec and kept, every other
      entry is unchanged. */
  ghost predicate DeploymentSpecCleaned(out: Dict, spec: Dict) {
    && (forall k :: k in DeploymentFieldsToRemove ==> k !in out)
    && (forall k :: k !in DeploymentFieldsToRemove ==> (k in out <==> k in spec))
    && (forall k :: k !in DeploymentFieldsToRemove && k != "template" && k in out ==> out[k] == spec[k])
    && match GetMap(spec, "template")
       case Some(t) => GetMap(out, "template").Some? && PodTemplateCleaned(GetMap(out, "template").value, t, ContainerFieldsToRemove)
       case None => "template" in spec ==> out["template"] == spec["template"]
  }

  /** cleanDeploymentSpec. */
  method CleanDeploymentSpec(spec: Dict) returns (r: Dict)
    ensures DeploymentSpecCleaned(r, spec)
    ensures Within(VMap(r), VMap(spec))
  {
    r := DeleteKeys(spec, DeploymentFieldsToRemove);
    assert "template" !in DeploymentFieldsToRemove;
    ghost var deleted := r;
    match GetMap(r, "template") {
      case Some(t) =>
        var cleaned := CleanPodTemplateSpec(t);
        WithinUpdate(r, "template", VMap(cleaned));
        r := r["template" := VMap(cleaned)];
        WithinTransitive(VMap(r), VMap(deleted), VMap(spec));
      case None =>
    }
  }

  /** The earlier cleanDeploymentSpec keeps the selector. */
  lemma SelectorKept(out: Dict, spec: Dict)
    requires DeploymentSpecCleaned(out, spec)
    requires "selector" in spec
    ensures "selector" in out && out["selector"] == spec["selector"]
  {
    assert "selector" !in DeploymentFieldsToRemove;
  }

  // ------------------------------------------------------------ runtime paths

  /** removeRuntimeFields: split every entry of the table on '.' and delete
      its last segment from the map the walk reached. */
  method RemoveRuntimeFields(m: Dict) returns (r: Dict)
    ensures r == RemoveAll(m, RuntimeFieldPaths(), false)
  {
    r := RemoveEach(m, RuntimeFieldsToRemove(), false);
  }

  /** "status" is the first path and has one segment, so it is always
      deleted from the top level. */
  lemma RuntimeStatusRemoved(m: Dict)
    ensures "status" !in RemoveAll(m, RuntimeFieldPaths(), false)
  {
    RuntimeRows();
    FirstTopKeyRemoved(m, RuntimeFieldPaths());
  }

  /** When the object has no map under "template", the entry
      "template.generation" deletes "generation" at the top level. */
  lemma RuntimeTemplateFallback(m: Dict)
    requires GetMap(m, "template").None?
    ensures "generation" !in RemoveAll(m, RuntimeFieldPaths(), false)
  {
    RuntimeRows();
    RemoveAllFallback(m, RuntimeFieldPaths(), 1);
  }

  /** The rows of the runtime table the lemmas below rely on. */
  lemma RuntimeRows()
    ensures var P := RuntimeFieldPaths();
      && P[0] == ["status"] && P[1] == ["template", "generation"]
      && P[2] == ["metadata", "generation"] && P[3] == ["metadata", "resourceVersion"]
      && P[4] == ["metadata", "selfLink"] && P[5] == ["metadata", "uid"]
      && P[6] == ["metadata", "creationTimestamp"] && P[7] == ["metadata", "deletionTimestamp"]
      && P[8] == ["metadata", "deletionGracePeriodSeconds"] && P[9] == ["metadata", "managedFields"]
  {
  }

  /** When a map has no map under "metadata", as most maps the recursion of
      cleanupMap visits do (spec.selector, say), the metadata.* entries
      delete their leaves at its top level instead. */
  lemma RuntimeMetadataFallback(m: Dict)
    requires GetMap(m, "metadata").None?
    ensures var r := RemoveAll(m, RuntimeFieldPaths(), false);
      && "generation" !in r && "resourceVersion" !in r && "selfLink" !in r && "uid" !in r
      && "creationTimestamp" !in r && "deletionTimestamp" !in r
      && "deletionGracePeriodSeconds" !in r && "managedFields" !in r
  {
    var P := RuntimeFieldPaths();
    RuntimeRows();
    RemoveAllFallback(m, P, 2);
    RemoveAllFallback(m, P, 3);
    RemoveAllFallback(m, P, 4);
    RemoveAllFallback(m, P, 5);
    RemoveAllFallback(m, P, 6);
    RemoveAllFallback(m, P, 7);
    RemoveAllFallback(m, P, 8);
    RemoveAllFallback(m, P, 9);
  }

  /** The eight metadata.* entries are honoured wherever metadata is a map
      after the table has run. */
  lemma RuntimeMetadataFields(m: Dict)
    ensures var r := RemoveAll(m, RuntimeFieldPaths(), false);
      GetMap(r, "metadata").Some? ==>
        var md := GetMap(r, "metadata").value;
        && "generation" !in md && "resourceVersion" !in md && "selfLink" !in md && "uid" !in md
        && "creationTimestamp" !in md && "deletionTimestamp" !in md
        && "deletionGracePeriodSeconds" !in md && "managedFields" !in md
  {
    var P := RuntimeFieldPaths();
    RuntimeRows();
    RemoveAllHonoursEvery(m, P, false);
    HonouredUnder(RemoveAll(m, P, false), P, "metadata", 2);
    HonouredUnder(RemoveAll(m, P, false), P, "metadata", 3);
    HonouredUnder(RemoveAll(m, P, false), P, "metadata", 4);
    HonouredUnder(RemoveAll(m, P, false), P, "metadata", 5);
    HonouredUnder(RemoveAll(m, P, false), P, "metadata", 6);
    HonouredUnder(RemoveAll(m, P, false), P, "metadata", 7);
    HonouredUnder(RemoveAll(m, P, false), P, "metadata", 8);
    HonouredUnder(RemoveAll(m, P, false), P, "metadata", 9);
  }

  /** No runtime path starts with or ends in "spec": the table leaves the
      spec of the object alone. */
  lemma RuntimeLeavesSpec(m: Dict)
    ensures var r := RemoveAll(m, RuntimeFieldPaths(), false);
      "spec" in m ==> "spec" in r && r["spec"] == m["spec"]
  {
    CommonRuntimeHeads();
    if "spec" in m {
      RemoveAllKeepsOthers(m, RuntimeFieldPaths(), false, "spec");
    }
  }

  // ---------------------------------------------------------------- cleanupMap

  /** A metadata map holds none of metadataFieldsToRemove. */
  ghost predicate MetadataOk(md: Option<Dict>) {
    md.Some? ==> forall k :: k in MetadataFieldsToRemove ==> k !in md.value
  }

  /** A spec map holds none of specFieldsToRemove. */
  ghost predicate SpecOk(spec: Option<Dict>) {
    spec.Some? ==> forall k :: k in SpecFieldsToRemove ==> k !in spec.value
  }

  ghost predicate DeploymentOk(spec: Option<Dict>) {
    spec.Some? ==> forall k :: k in DeploymentFieldsToRemove ==> k !in spec.value
  }

  ghost predicate ServiceOk(spec: Option<Dict>) {
    spec.Some? ==> "clusterIP" !in spec.value && "clusterIPs" !in spec.value
  }

  /** The kinds cleanDeploymentSpec is applied to. */
  predicate IsWorkloadKind(kind: Option<string>) {
    kind == Some("Deployment") || kind == Some("StatefulSet") || kind == Some("DaemonSet")
  }

  /** What the section cleaners of cleanupMap leave behind in an object of
      the given kind (a Secret's spec is not cleaned). */
  ghost predicate ObjectCleaned(r: Dict, kind: Option<string>) {
    && MetadataOk(GetMap(r, "metadata"))
    && (kind != Some("Secret") ==> SpecOk(GetMap(r, "spec")))
    && (IsWorkloadKind(kind) ==> DeploymentOk(GetMap(r, "spec")))
    && (kind == Some("Service") ==> ServiceOk(GetMap(r, "spec")))
  }

  /** Removing more entries keeps an object cleaned. */
  lemma ObjectCleanedWithin(a: Dict, b: Dict, kind: Option<string>)
    requires ObjectCleaned(b, kind) && Within(VMap(a), VMap(b))
    ensures ObjectCleaned(a, kind)
  {
    if GetMap(a, "metadata").Some? { WithinGetMap(a, b, "metadata"); }
    if GetMap(a, "spec").Some? { WithinGetMap(a, b, "spec"); }
  }

  /** A metadata map, where the object has one, is replaced by what
      cleanMetadata makes of it. */
  ghost predicate MetadataEntryCleaned(out: Option<Dict>, md: Option<Dict>) {
    md.Some? ==> out.Some? && MetadataCleaned(out.value, md.value)
  }

  /** A spec map, where the object has one, is replaced by what cleanSpec
      makes of it. */
  ghost predicate SpecEntryCleaned(out: Option<Dict>, spec: Option<Dict>) {
    spec.Some? ==> out.Some? && SpecCleaned(out.value, spec.value)
  }

  /** What the switch on kind makes of a spec map: cleanDeploymentSpec for
      the workload kinds, the two cluster IP fields deleted for a Service,
      nothing for any other kind. */
  ghost predicate KindSpecCleaned(out: Dict, spec: Dict, kind: Option<string>) {
    if IsWorkloadKind(kind) then DeploymentSpecCleaned(out, spec)
    else if kind == Some("Service") then out == spec - {"clusterIP", "clusterIPs"}
    else out == spec
  }

  /** A spec map, where the object has one, is replaced by what the switch
      on kind makes of it. */
  ghost predicate KindEntryCleaned(out: Option<Dict>, spec: Option<Dict>, kind: Option<string>) {
    spec.Some? ==> out.Some? && KindSpecCleaned(out.value, spec.value, kind)
  }

  /** A spec map, where the object has one, is replaced by what cleanSpec
      and then the switch on kind make of it; a Secret's spec is left as it
      is. */
  ghost predicate SpecThroughSections(out: Option<Dict>, spec: Option<Dict>, kind: Option<string>) {
    spec.Some? ==>
      && out.Some?
      && (kind == Some("Secret") ==> out == spec)
      && (kind != Some("Secret") ==> exists c :: SpecCleaned(c, spec.value) && KindSpecCleaned(out.value, c, kind))
  }

  /** The metadata step of cleanupMap. */
  method CleanMetadataSection(m: Dict) returns (s: Dict)
    ensures MetadataEntryCleaned(GetMap(s, "metadata"), GetMap(m, "metadata"))
    ensures MetadataOk(GetMap(s, "metadata"))
    ensures GetMap(s, "spec") == GetMap(m, "spec") && GetStr(s, "kind") == GetStr(m, "kind")
    ensures SameExcept(s, m, {"metadata"}) && s.Keys == m.Keys
    ensures !("metadata" in m && m["metadata"].VMap?) ==> s == m
    ensures Within(VMap(s), VMap(m))
  {
    s := m;
    match GetMap(m, "metadata") {
      case Some(metadata) =>
        var cleaned := CleanMetadata(metadata);
        WithinUpdate(m, "metadata", VMap(cleaned));
        GetAfterUpdate(m, "metadata", VMap(cleaned), "spec");
        GetAfterUpdate(m, "metadata", VMap(cleaned), "data");
        GetAfterUpdate(m, "metadata", VMap(cleaned), "kind");
        s := m["metadata" := VMap(cleaned)];
      case None =>
    }
  }

  /** The spec step of cleanupMap (skipped for a Secret). */
  method CleanSpecSection(m: Dict) returns (s: Dict)
    ensures SpecEntryCleaned(GetMap(s, "spec"), GetMap(m, "spec"))
    ensures SpecOk(GetMap(s, "spec"))
    ensures GetMap(s, "metadata") == GetMap(m, "metadata") && GetStr(s, "kind") == GetStr(m, "kind")
    ensures SameExcept(s, m, {"spec"}) && s.Keys == m.Keys
    ensures !("spec" in m && m["spec"].VMap?) ==> s == m
    ensures Within(VMap(s), VMap(m))
  {
    s := m;
    match GetMap(m, "spec") {
      case Some(spec) =>
        var cleaned := CleanSpec(spec);
        WithinUpdate(m, "spec", VMap(cleaned));
        GetAfterUpdate(m, "spec", VMap(cleaned), "metadata");
        GetAfterUpdate(m, "spec", VMap(cleaned), "data");
        GetAfterUpdate(m, "spec", VMap(cleaned), "kind");
        s := m["spec" := VMap(cleaned)];
      case None =>
    }
  }

  /** The metadata and spec steps of cleanupMap; a Secret keeps its spec. */
  method CleanMetadataAndSpec(m: Dict) returns (s: Dict)
    ensures MetadataEntryCleaned(GetMap(s, "metadata"), GetMap(m, "metadata"))
    ensures GetStr(m, "kind") != Some("Secret") ==> SpecEntryCleaned(GetMap(s, "spec"), GetMap(m, "spec"))
    ensures GetStr(m, "kind") == Some("Secret") ==> GetMap(s, "spec") == GetMap(m, "spec")
    ensures GetStr(s, "kind") == GetStr(m, "kind")
    ensures MetadataOk(GetMap(s, "metadata"))
    ensures GetStr(m, "kind") != Some("Secret") ==> SpecOk(GetMap(s, "spec"))
    ensures SameExcept(s, m, {"metadata", "spec"}) && s.Keys == m.Keys
    ensures forall k :: k in m && !m[k].VMap? ==> s[k] == m[k]
    ensures GetStr(m, "kind") == Some("Secret") ==> SameExcept(s, m, {"metadata"})
    ensures Within(VMap(s), VMap(m))
  {
    var s1 := CleanMetadataSection(m);
    s := s1;
    if GetStr(m, "kind") != Some("Secret") {
      s := CleanSpecSection(s1);
      WithinTransitive(VMap(s), VMap(s1), VMap(m));
    }
  }

  /** The Deployment, StatefulSet and DaemonSet case of the switch on kind. */
  method CleanWorkloadSection(m: Dict) returns (s: Dict)
    ensures KindEntryCleaned(GetMap(s, "spec"), GetMap(m, "spec"), Some("Deployment"))
    ensures DeploymentOk(GetMap(s, "spec"))
    ensures GetMap(s, "metadata") == GetMap(m, "metadata") && GetStr(s, "kind") == GetStr(m, "kind")
    ensures SameExcept(s, m, {"spec"}) && s.Keys == m.Keys
    ensures !("spec" in m && m["spec"].VMap?) ==> s == m
    ensures Within(VMap(s), VMap(m))
  {
    s := m;
    match GetMap(m, "spec") {
      case Some(spec) =>
        var cleaned := CleanDeploymentSpec(spec);
        WithinUpdate(m, "spec", VMap(cleaned));
        GetAfterUpdate(m, "spec", VMap(cleaned), "metadata");
        GetAfterUpdate(m, "spec", VMap(cleaned), "data");
        GetAfterUpdate(m, "spec", VMap(cleaned), "kind");
        s := m["spec" := VMap(cleaned)];
      case None =>
    }
  }

  /** The Service case of the switch on kind. */
  method CleanServiceSection(m: Dict) returns (s: Dict)
    ensures KindEntryCleaned(GetMap(s, "spec"), GetMap(m, "spec"), Some("Service"))
    ensures GetMap(s, "metadata") == GetMap(m, "metadata") && GetStr(s, "kind") == GetStr(m, "kind")
    ensures SameExcept(s, m, {"spec"}) && s.Keys == m.Keys
    ensures !("spec" in m && m["spec"].VMap?) ==> s == m
    ensures Within(VMap(s), VMap(m))
  {
    s := m;
    match GetMap(m, "spec") {
      case Some(spec) =>
        var cleaned := spec - {"clusterIP", "clusterIPs"};
        WithinRemove(spec, cleaned);
        WithinUpdate(m, "spec", VMap(cleaned));
        GetAfterUpdate(m, "spec", VMap(cleaned), "metadata");
        GetAfterUpdate(m, "spec", VMap(cleaned), "data");
        GetAfterUpdate(m, "spec", VMap(cleaned), "kind");
        s := m["spec" := VMap(cleaned)];
      case None =>
    }
  }

  /** The switch on kind in cleanupMap. */
  method CleanKindSection(m: Dict) returns (s: Dict)
    ensures KindEntryCleaned(GetMap(s, "spec"), GetMap(m, "spec"), GetStr(m, "kind"))
    ensures IsWorkloadKind(GetStr(m, "kind")) ==> DeploymentOk(GetMap(s, "spec"))
    ensures GetStr(m, "kind") == Some("Service") ==> ServiceOk(GetMap(s, "spec"))
    ensures GetMap(s, "metadata") == GetMap(m, "metadata") && GetStr(s, "kind") == GetStr(m, "kind")
    ensures SameExcept(s, m, {"spec"}) && s.Keys == m.Keys
    ensures !("spec" in m && m["spec"].VMap?) ==> s == m
    ensures !IsWorkloadKind(GetStr(m, "kind")) && GetStr(m, "kind") != Some("Service") ==> s == m
    ensures Within(VMap(s), VMap(m))
  {
    s := m;
    var kind := GetStr(m, "kind");
    if IsWorkloadKind(kind) {
      s := CleanWorkloadSection(m);
    } else if kind == Some("Service") {
      s := CleanServiceSection(m);
    }
  }

  /** cleanSpec (skipped for a Secret) followed by the switch on kind. */
  lemma SpecThroughKind(spec: Option<Dict>, mid: Option<Dict>, out: Option<Dict>, kind: Option<string>)
    requires kind != Some("Secret") ==> SpecEntryCleaned(mid, spec)
    requires kind == Some("Secret") ==> mid == spec
    requires KindEntryCleaned(out, mid, kind)
    ensures SpecThroughSections(out, spec, kind)
  {
    if spec.Some? && kind != Some("Secret") {
      assert SpecCleaned(mid.value, spec.value) && KindSpecCleaned(out.value, mid.value, kind);
    }
  }

  /** The switch on kind keeps what the metadata and spec steps left
      behind, and adds its own guarantees. */
  lemma CleanedThroughKind(s2: Dict, s: Dict, kind: Option<string>)
    requires MetadataOk(GetMap(s2, "metadata"))
    requires kind != Some("Secret") ==> SpecOk(GetMap(s2, "spec"))
    requires GetMap(s, "metadata") == GetMap(s2, "metadata") && Within(VMap(s), VMap(s2))
    requires IsWorkloadKind(kind) ==> DeploymentOk(GetMap(s, "spec"))
    requires kind == Some("Service") ==> ServiceOk(GetMap(s, "spec"))
    ensures ObjectCleaned(s, kind)
  {
    if GetMap(s, "spec").Some? {
      WithinGetMap(s, s2, "spec");
    }
  }

  /** The section cleaners at the head of cleanupMap: metadata, spec unless
      the object is a Secret, then the cleanup chosen by kind. Entries that
      are not maps, and every key, are left as they are. */
  method CleanSections(m: Dict) returns (s: Dict)
    ensures MetadataEntryCleaned(GetMap(s, "metadata"), GetMap(m, "metadata"))
    ensures SpecThroughSections(GetMap(s, "spec"), GetMap(m, "spec"), GetStr(m, "kind"))
    ensures SameExcept(s, m, {"metadata", "spec"})
    ensures ObjectCleaned(s, GetStr(m, "kind"))
    ensures s.Keys == m.Keys
    ensures forall k :: k in m && !m[k].VMap? ==> s[k] == m[k]
    ensures GetStr(m, "kind") == Some("Secret") ==> SameExcept(s, m, {"metadata"})
    ensures Within(VMap(s), VMap(m))
  {
    var s2 := CleanMetadataAndSpec(m);
    s := CleanKindSection(s2);
    SpecThroughKind(GetMap(m, "spec"), GetMap(s2, "spec"), GetMap(s, "spec"), GetStr(m, "kind"));
    SameExceptTransitive(s, s2, m, {"spec"}, {"metadata", "spec"}, {"metadata", "spec"});
    CleanedThroughKind(s2, s, GetStr(m, "kind"));
    WithinTransitive(VMap(s), VMap(s2), VMap(m));
  }

  /** Whenever the object is a Secret, every scalar entry of its spec whose
      key is not the last segment of a runtime path is still there. */
  ghost predicate SecretSpecKept(r: Dict, m: Dict) {
    GetStr(m, "kind") == Some("Secret") ==> SpecScalarsKept(r, m, RuntimeLeaves())
  }

  /** cleanupMap: the section cleaners, then the rest. */
  method CleanupMap(m: Dict) returns (r: Dict)
    ensures SweptFrom(r, m, RuntimeLeaves())
    ensures ObjectCleaned(r, GetStr(m, "kind"))
    ensures SecretSpecKept(r, m)
    decreases Height(VMap(m)), 2
  {
    var s := CleanSections(m);
    WithinHeight(VMap(s), VMap(m));
    r := CleanRuntimeAndChildren(s);
    WithinTransitive(VMap(r), VMap(s), VMap(m));
    ObjectCleanedWithin(r, s, GetStr(m, "kind"));
    ScalarsThroughSections(m, s, r, RuntimeLeaves());
    if GetStr(m, "kind") == Some("Secret") {
      SpecScalarsThroughSections(m, s, r, RuntimeLeaves());
    }
  }

  /** The rest of cleanupMap: removeRuntimeFields, the recursion into every
      value, and the sweep of empty maps. */
  method CleanRuntimeAndChildren(s: Dict) returns (r: Dict)
    ensures SweptFrom(r, s, RuntimeLeaves())
    ensures SpecScalarsKept(r, s, RuntimeLeaves())
    decreases Height(VMap(s)), 1
  {
    var t := RemoveRuntimeFields(s);
    WithinHeight(VMap(t), VMap(s));
    var c := CleanChildren(t);
    r := DropEmptyMaps(c);
    RuntimeStatusRemoved(s);
    SweepWithin(t, c, r, RuntimeLeaves());
    WithinTransitive(VMap(r), VMap(t), VMap(s));
    SweepScalars(s, RuntimeFieldPaths(), c, r);
    if GetMap(s, "spec").Some? {
      RuntimeLeavesSpec(s);
      SpecScalarsSurvive(s, t, c, r, RuntimeLeaves());
    }
  }

  /** The recursive loop of cleanupMap over the values of the map. */
  method CleanChildren(d: Dict) returns (r: Dict)
    ensures r.Keys == d.Keys
    ensures forall k :: k in d ==> ChildSwept(r[k], d[k], RuntimeLeaves())
    decreases Height(VMap(d)), 0
  {
    r := d;
    var todo := d.Keys;
    while todo != {}
      invariant todo <= d.Keys && r.Keys == d.Keys
      invariant forall k :: k in d && k !in todo ==> ChildSwept(r[k], d[k], RuntimeLeaves())
      invariant forall k :: k in todo ==> r[k] == d[k]
      decreases todo
    {
      var key :| key in todo;
      assert Height(d[key]) < Height(VMap(d));
      var cleaned := CleanChild(d[key]);
      r := r[key := cleaned];
      todo := todo - {key};
    }
  }

  /** The type switch in the loop of cleanupMap. */
  method CleanChild(v: Value) returns (out: Value)
    ensures ChildSwept(out, v, RuntimeLeaves())
    decreases Height(v), 3
  {
    out := v;
    match v {
      case VMap(e) =>
        var cleaned := CleanupMap(e);
        out := VMap(cleaned);
      case VList(items) =>
        var cleaned := CleanItems(items);
        out := VList(cleaned);
      case _ =>
    }
  }

  /** The loop over a list value: every element that is a map is cleaned by
      cleanupMap; other elements are left alone. */
  method CleanItems(items: seq<Value>) returns (out: seq<Value>)
    ensures ItemsSwept(out, items, RuntimeLeaves())
    decreases Height(VList(items)), 0
  {
    out := items;
    for i := 0 to |items|
      invariant |out| == |items|
      invariant forall j :: i <= j < |items| ==> out[j] == items[j]
      invariant forall j :: 0 <= j < i ==>
        if items[j].VMap? then out[j].VMap? && SweptFrom(out[j].entries, items[j].entries, RuntimeLeaves())
        else out[j] == items[j]
    {
      match items[i] {
        case VMap(e) =>
          assert Height(items[i]) < Height(VList(items));
          var cleaned := CleanupMap(e);
          out := out[i := VMap(cleaned)];
        case _ =>
      }
    }
  }

  // ------------------------------------------------------------ whole object

  /** What cleanKubernetesObject does, without the schema lookup (which
      changes nothing): an existing namespace of a metadata map becomes
      "default", an absent one stays absent, and "replicas" leaves a spec
      map; nothing else changes. */
  ghost predicate ObjectEdited(r: Dict, obj: Dict) {
    && SameExcept(r, obj, {"metadata", "spec"}) && r.Keys == obj.Keys
    && (match GetMap(obj, "metadata")
        case Some(md) =>
          && GetMap(r, "metadata").Some?
          && var md2 := GetMap(r, "metadata").value;
             && (forall k :: k in md2 <==> k in md)
             && ("namespace" in md ==> md2["namespace"] == VStr("default"))
             && (forall k :: k in md && k != "namespace" ==> md2[k] == md[k])
        case None => "metadata" in obj ==> r["metadata"] == obj["metadata"])
    && (match GetMap(obj, "spec")
        case Some(spec) => GetMap(r, "spec").Some? && KeysDeleted(GetMap(r, "spec").value, spec, ["replicas"])
        case None => "spec" in obj ==> r["spec"] == obj["spec"])
  }

  /** cleanKubernetesObject. */
  method CleanKubernetesObject(obj: Dict) returns (r: Dict)
    ensures ObjectEdited(r, obj)
  {
    r := obj;
    match GetMap(obj, "metadata") {
      case Some(md) =>
        if "namespace" in md {
          r := r["metadata" := VMap(md["namespace" := VStr("default")])];
        }
      case None =>
    }
    match GetMap(r, "spec") {
      case Some(spec) =>
        if "replicas" in spec {
          r := r["spec" := VMap(spec - {"replicas"})];
        }
      case None =>
    }
  }

  /** The edits of cleanKubernetesObject keep an object cleaned (the
      namespace is not a field cleanMetadata deletes, and the spec only
      loses an entry), add no "status", and leave the namespace "default"
      wherever there is one. */
  lemma ObjectEditedKeepsCleaned(r: Dict, obj: Dict, kind: Option<string>)
    requires ObjectEdited(r, obj) && ObjectCleaned(obj, kind) && "status" !in obj
    ensures ObjectCleaned(r, kind)
    ensures "status" !in r
    ensures GetMap(r, "metadata").Some? && "namespace" in GetMap(r, "metadata").value ==>
      GetMap(r, "metadata").value["namespace"] == VStr("default")
    ensures GetMap(r, "spec").Some? ==> "replicas" !in GetMap(r, "spec").value
  {
    if GetMap(r, "metadata").Some? {
      assert GetMap(obj, "metadata").Some?;
    }
    if GetMap(r, "spec").Some? {
      assert GetMap(obj, "spec").Some?;
    }
  }

  /** One document of cleanupManifest: skipped when empty, otherwise cleaned
      by cleanupMap and then cleanKubernetesObject. */
  method CleanDocument(doc: Dict) returns (out: Option<Dict>)
    ensures out.None? <==> IsEmptyDocument(doc)
    ensures out.Some? ==>
      && ObjectCleaned(out.value, GetStr(doc, "kind"))
      && "status" !in out.value
      && (GetMap(out.value, "metadata").Some? && "namespace" in GetMap(out.value, "metadata").value ==>
            GetMap(out.value, "metadata").value["namespace"] == VStr("default"))
      && (GetMap(out.value, "spec").Some? ==> "replicas" !in GetMap(out.value, "spec").value)
  {
    if IsEmptyDocument(doc) {
      return None;
    }
    var cleaned := CleanupMap(doc);
    var obj := CleanKubernetesObject(cleaned);
    assert "status" !in cleaned;
    ObjectEditedKeepsCleaned(obj, cleaned, GetStr(doc, "kind"));
    out := Some(obj);
  }
}
