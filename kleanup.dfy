/** The cleaners of Kleanup.go, the later version of the tool. Every Go
    function that edits a map in place becomes a method that takes the map
    and returns its new contents; the caller stores the result back where
    the map was. */
module Kleanup {
  import opened Tree
  import opened Text
  import opened Paths
  import opened Edits
  import opened Workloads
  import opened Runtime

  /** metadataFieldsToRemove (eleven fields, labels and namespace among them). */
  const MetadataFieldsToRemove: seq<string> := [
    "creationTimestamp",
    "generation",
    "resourceVersion",
    "selfLink",
    "uid",
    "managedFields",
    "ownerReferences",
    "finalizers",
    "generateName",
    "labels",
    "namespace"
  ]

  /** The five entries runtimeFieldsToRemove has beyond the earlier version.
      The annotation path has five segments because its key itself contains
      dots. */
  const LaterRuntimePaths: seq<seq<string>> := [
    ["metadata", "labels"],
    ["metadata", "annotations", "kubectl", "kubernetes", "io/last-applied-configuration"],
    ["status", "conditions"],
    ["status", "observedGeneration"],
    ["status", "loadBalancer"]
  ]


  lemma LaterRowsA()
    ensures forall i :: 0 <= i < 2 ==> |LaterRuntimePaths[i]| >= 1 && NoDotsIn(LaterRuntimePaths[i])
  {
  }

  lemma LaterRowsB()
    ensures forall i :: 2 <= i < 5 ==> |LaterRuntimePaths[i]| >= 1 && NoDotsIn(LaterRuntimePaths[i])
  {
  }

  lemma LaterRuntimeHeads()
    ensures forall i :: 0 <= i < 5 ==>
      && LaterRuntimePaths[i][0] in {"status", "template", "metadata"}
      && Last(LaterRuntimePaths[i]) != "spec" && Last(LaterRuntimePaths[i]) != "data"
  {
  }

  lemma LaterRows()
    ensures |LaterRuntimePaths| == 5 && AllNonEmpty(LaterRuntimePaths) && NoDots(LaterRuntimePaths)
  {
    LaterRowsA();
    LaterRowsB();
  }

  /** runtimeFieldsToRemove, as segments. */
  function RuntimeFieldPaths(): (paths: seq<seq<string>>)
    ensures |paths| == 15 && AllNonEmpty(paths) && NoDots(paths)
  {
    CommonRuntimePathsWellFormed();
    LaterRows();
    AppendWellFormed(CommonRuntimePaths, LaterRuntimePaths);
    CommonRuntimePaths + LaterRuntimePaths
  }

  /** runtimeFieldsToRemove, the fifteen dotted strings. */
  function RuntimeFieldsToRemove(): (table: seq<string>)
    ensures |table| == 15 && SplitAll(table) == RuntimeFieldPaths()
  {
    SplitAllJoinAll(RuntimeFieldPaths());
    JoinAll(RuntimeFieldPaths())
  }

  /** The keys removeRuntimeFields can delete: the last segment of each path. */
  ghost function RuntimeLeaves(): set<string>
  {
    Leaves(RuntimeFieldPaths())
  }

  /** The top-level spec fields cleanSpec deletes: specFieldsToRemove and
      the three plain names cleanSpec appends to it. */
  const SpecTopFields: seq<string> := SpecFieldsToRemove + ["progressDeadlineSeconds", "revisionHistoryLimit", "strategy"]

  /** The seven fields cleanSpec appends below "template.spec.". */
  const TemplateSpecFields: seq<string> := [
    "imagePullPolicy",
    "terminationMessagePath",
    "terminationMessagePolicy",
    "dnsPolicy",
    "schedulerName",
    "securityContext",
    "terminationGracePeriodSeconds"
  ]

  /** The paths cleanSpec walks, in its order. */
  function SpecPaths(): (paths: seq<seq<string>>)
    ensures |paths| == 33 && AllNonEmpty(paths)
    ensures forall j :: 0 <= j < 26 ==> paths[j] == [SpecTopFields[j]]
    ensures forall i :: 0 <= i < 7 ==> paths[26 + i] == ["template", "spec", TemplateSpecFields[i]]
  {
    var paths := Singletons(SpecTopFields) + Under(["template", "spec"], TemplateSpecFields);
    assert forall i :: 0 <= i < 7 ==> paths[26 + i] == Under(["template", "spec"], TemplateSpecFields)[i];
    paths
  }

  lemma SpecFieldsA()
    ensures forall i :: 0 <= i < 6 ==> '.' !in SpecFieldsToRemove[i]
  {
  }

  lemma SpecFieldsB()
    ensures forall i :: 6 <= i < 12 ==> '.' !in SpecFieldsToRemove[i]
  {
  }

  lemma SpecFieldsC()
    ensures forall i :: 12 <= i < 18 ==> '.' !in SpecFieldsToRemove[i]
  {
  }

  lemma SpecFieldsD()
    ensures forall i :: 18 <= i < 23 ==> '.' !in SpecFieldsToRemove[i]
  {
  }

  lemma SpecTopFieldsNoDots()
    ensures NoDotsIn(SpecTopFields)
  {
    SpecFieldsA();
    SpecFieldsB();
    SpecFieldsC();
    SpecFieldsD();
    var extra := ["progressDeadlineSeconds", "revisionHistoryLimit", "strategy"];
    assert NoDotsIn(extra);
    forall i | 0 <= i < |SpecTopFields| ensures '.' !in SpecTopFields[i] {
      if i < 23 { assert SpecTopFields[i] == SpecFieldsToRemove[i]; } else { assert SpecTopFields[i] == extra[i - 23]; }
    }
  }

  lemma TemplateSpecFieldsNoDots()
    ensures NoDotsIn(TemplateSpecFields) && NoDotsIn(["template", "spec"])
  {
  }

  lemma SpecPathsWellFormed()
    ensures NoDots(SpecPaths())
    ensures JoinAll(SpecPaths()) == SpecTopFields + JoinAll(Under(["template", "spec"], TemplateSpecFields))
  {
    SpecTopFieldsNoDots();
    TemplateSpecFieldsNoDots();
    NoDotsUnder(["template", "spec"], TemplateSpecFields);
    NoDotsAppend(SpecTopFields, Under(["template", "spec"], TemplateSpecFields));
    JoinAllAppend(SpecTopFields, Under(["template", "spec"], TemplateSpecFields));
  }

  /** The deletions of cleanDeploymentSpec (the fields list local to it). */
  const DeploymentFieldsToRemove: seq<string> := [
    "replicas",
    "paused",
    "progressDeadlineSeconds",
    "revisionHistoryLimit",
    "strategy",
    "selector"
  ]

  /** The deletions of cleanContainerSpec. */
  const ContainerFieldsToRemove: seq<string> := [
    "terminationMessagePath",
    "terminationMessagePolicy",
    "imagePullPolicy",
    "securityContext",
    "livenessProbe",
    "readinessProbe",
    "startupProbe",
    "resources",
    "ports"
  ]

  /** The label prefixes of the labels block of cleanMetadata. */
  const LabelPrefixes: seq<string> := ["kubernetes.io/", "k8s.io/", "control-plane.alpha.kubernetes.io/"]

  // ---------------------------------------------------------------- metadata

  /** What cleanMetadata promises: none of the eleven fields is left,
      annotations are filtered (and dropped once empty), every other entry
      is unchanged. */
  ghost predicate MetadataCleaned(out: Dict, md: Dict) {
    && (forall k :: k in MetadataFieldsToRemove ==> k !in out)
    && EntryFiltered(out, md, "annotations", AnnotationPrefixesToRemove)
    && (forall k :: k !in MetadataFieldsToRemove && k != "annotations" ==> (k in out <==> k in md))
    && (forall k :: k !in MetadataFieldsToRemove && k != "annotations" && k in out ==> out[k] == md[k])
  }

  lemma MetadataFieldsFacts()
    ensures "labels" in MetadataFieldsToRemove
    ensures "annotations" !in MetadataFieldsToRemove && "metadata" !in MetadataFieldsToRemove
  {
  }

  /** The labels block of cleanMetadata: filter a map of labels by the three
      label prefixes and drop it once empty. It runs after "labels" has been
      deleted, so in cleanMetadata it never changes anything. */
  method CleanLabels(md: Dict) returns (r: Dict)
    ensures "labels" !in md ==> r == md
    ensures EntryFiltered(r, md, "labels", LabelPrefixes)
    ensures forall k :: k != "labels" ==> (k in r <==> k in md) && (k in r ==> r[k] == md[k])
    ensures Within(VMap(r), VMap(md))
  {
    r := md;
    match GetMap(md, "labels") {
      case Some(labels) =>
        var cleaned := RemovePrefixed(labels, LabelPrefixes);
        r := ReplaceOrDrop(md, "labels", labels, cleaned, LabelPrefixes);
      case None =>
    }
  }

  /** cleanMetadata. */
  method CleanMetadata(md: Dict) returns (r: Dict)
    ensures MetadataCleaned(r, md)
    ensures Within(VMap(r), VMap(md))
  {
    var a := CleanAnnotationsEntry(md);
    var b := DeleteKeys(a, MetadataFieldsToRemove);
    MetadataFieldsFacts();
    r := CleanLabels(b);
    if |r| == 0 {
      r := r - {"metadata"};
    }
    WithinTransitive(VMap(r), VMap(a), VMap(md));
  }

  /** The last step of cleanMetadata deletes the key "metadata" from a map
      that is already empty: it never removes an entry, and a metadata map
      that has its own "metadata" entry keeps it. */
  lemma MetadataKeyNeverDeleted(out: Dict, md: Dict)
    requires MetadataCleaned(out, md)
    requires "metadata" in md
    ensures "metadata" in out && out["metadata"] == md["metadata"]
  {
    assert "metadata" !in MetadataFieldsToRemove;
  }

  // -------------------------------------------------------------- containers

  /** One port after the default-protocol cleanup: a map port loses a
      "protocol" entry equal to "TCP" and is kept unless that left it
      empty; a port that is not a map is dropped. */
  function KeptPort(p: Value): seq<Value>
  {
    match p
    case VMap(e) =>
      var q := if GetStr(e, "protocol") == Some("TCP") then e - {"protocol"} else e;
      if |q| > 0 then [VMap(q)] else []
    case _ => []
  }

  /** The list the port loop of cleanContainerSpec builds. */
  function KeptPorts(ports: seq<Value>): seq<Value>
  {
    if ports == [] then [] else KeptPorts(ports[..|ports| - 1]) + KeptPort(ports[|ports| - 1])
  }

  /** Every port kept is a non-empty map whose protocol is not "TCP", and
      there are no more of them than there were ports. */
  lemma {:induction false} KeptPortsShape(ports: seq<Value>)
    ensures |KeptPorts(ports)| <= |ports|
    ensures forall i :: 0 <= i < |KeptPorts(ports)| ==>
      KeptPorts(ports)[i].VMap? && |KeptPorts(ports)[i].entries| > 0
      && GetStr(KeptPorts(ports)[i].entries, "protocol") != Some("TCP")
    decreases |ports|
  {
    if ports != [] {
      KeptPortsShape(ports[..|ports| - 1]);
    }
  }

  /** The port loop at the end of cleanContainerSpec. */
  method CleanPorts(container: Dict) returns (r: Dict)
    ensures GetList(container, "ports").None? ==> r == container
    ensures GetList(container, "ports").Some? ==>
      var kept := KeptPorts(GetList(container, "ports").value);
      r == if kept == [] then container - {"ports"} else container["ports" := VList(kept)]
  {
    r := container;
    match GetList(container, "ports") {
      case Some(ports) =>
        var cleanPorts: seq<Value> := [];
        for i := 0 to |ports|
          invariant cleanPorts == KeptPorts(ports[..i])
        {
          assert ports[..i + 1][..i] == ports[..i];
          match ports[i] {
            case VMap(port) =>
              if GetStr(port, "protocol") == Some("TCP") {
                port := port - {"protocol"};
              }
              if |port| > 0 {
                cleanPorts := cleanPorts + [VMap(port)];
              }
            case _ =>
          }
        }
        assert ports[..|ports|] == ports;
        if |cleanPorts| > 0 {
          r := r["ports" := VList(cleanPorts)];
        } else {
          r := r - {"ports"};
        }
      case None =>
    }
  }

  /** cleanContainerSpec: the nine fields are deleted, "ports" among them,
      so the port loop that follows finds no ports and changes nothing. */
  method CleanContainerSpec(container: Dict) returns (r: Dict)
    ensures KeysDeleted(r, container, ContainerFieldsToRemove)
    ensures "ports" !in r
    ensures Within(VMap(r), VMap(container))
  {
    r := DeleteKeys(container, ContainerFieldsToRemove);
    assert "ports" in ContainerFieldsToRemove;
    var s := CleanPorts(r);
    assert s == r;
  }

  /** The container loop of cleanPodTemplateSpec. */
  method CleanContainers(items: seq<Value>) returns (out: seq<Value>)
    ensures ContainersCleaned(out, items, ContainerFieldsToRemove)
    ensures Within(VList(out), VList(items))
  {
    out := items;
    for i := 0 to |items|
      invariant |out| == |items|
      invariant forall j :: i <= j < |items| ==> out[j] == items[j]
      invariant forall j :: 0 <= j < i ==>
        if items[j].VMap? then out[j].VMap? && KeysDeleted(out[j].entries, items[j].entries, ContainerFieldsToRemove)
          && Within(out[j], items[j])
        else out[j] == items[j]
    {
      match items[i] {
        case VMap(c) =>
          var cleaned := CleanContainerSpec(c);
          out := out[i := VMap(cleaned)];
        case _ =>
      }
    }
    assert forall j :: 0 <= j < |out| ==> Within(out[j], items[j]);
  }

  /** cleanPodTemplateSpec. */
  method CleanPodTemplateSpec(template: Dict) returns (r: Dict)
    ensures PodTemplateCleaned(r, template, ContainerFieldsToRemove)
    ensures Within(VMap(r), VMap(template))
  {
    r := template;
    match GetMap(template, "spec") {
      case Some(spec) =>
        var containers: Option<seq<Value>> := None;
        match GetList(spec, "containers") {
          case Some(cs) =>
            var cleaned := CleanContainers(cs);
            containers := Some(cleaned);
          case None =>
        }
        var s := CleanPodSpec(spec, containers, ContainerFieldsToRemove);
        r := template["spec" := VMap(s)];
        WithinUpdate(template, "spec", VMap(s));
      case None =>
    }
  }

  // -------------------------------------------------------------------- spec

  /** The template block of cleanDeploymentSpec: a template map is cleaned
      by cleanPodTemplateSpec and dropped when that leaves it empty. */
  ghost predicate DeploymentTemplateCleaned(out: Dict, spec: Dict) {
    match GetMap(spec, "template")
    case Some(t) =>
      if |t| == 0 then "template" !in out
      else "template" in out && out["template"].VMap? && PodTemplateCleaned(out["template"].entries, t, ContainerFieldsToRemove)
    case None => ("template" in out <==> "template" in spec) && ("template" in spec ==> out["template"] == spec["template"])
  }

  /** What cleanDeploymentSpec promises: no deployment field is left, the
      template is cleaned, every other entry is unchanged. */
  ghost predicate DeploymentSpecCleaned(out: Dict, spec: Dict) {
    && (forall k :: k in DeploymentFieldsToRemove ==> k !in out)
    && (forall k :: k !in DeploymentFieldsToRemove && k != "template" ==> (k in out <==> k in spec))
    && (forall k :: k !in DeploymentFieldsToRemove && k != "template" && k in out ==> out[k] == spec[k])
    && DeploymentTemplateCleaned(out, spec)
  }

  /** A cleaned pod template is empty exactly when the template was. */
  lemma PodTemplateCleanedEmpty(out: Dict, t: Dict)
    requires PodTemplateCleaned(out, t, ContainerFieldsToRemove)
    ensures |out| == 0 <==> |t| == 0
  {
    if |t| != 0 {
      var k :| k in t;
      assert k in out;
    }
    if |out| != 0 {
      var k :| k in out;
      if GetMap(t, "spec").Some? { assert k in t; }
    }
  }

  lemma DeploymentFieldsFacts()
    ensures "template" !in DeploymentFieldsToRemove
  {
  }

  /** The template block of cleanDeploymentSpec. */
  method CleanDeploymentTemplate(spec: Dict) returns (r: Dict)
    ensures SameExcept(r, spec, {"template"}) && DeploymentTemplateCleaned(r, spec)
    ensures Within(VMap(r), VMap(spec))
  {
    r := spec;
    match GetMap(spec, "template") {
      case Some(t) =>
        var cleaned := CleanPodTemplateSpec(t);
        PodTemplateCleanedEmpty(cleaned, t);
        if |cleaned| == 0 {
          r := spec - {"template"};
          WithinRemove(spec, r);
        } else {
          r := spec["template" := VMap(cleaned)];
          WithinUpdate(spec, "template", VMap(cleaned));
        }
      case None =>
    }
  }

  /** cleanDeploymentSpec. */
  method CleanDeploymentSpec(spec: Dict) returns (r: Dict)
    ensures DeploymentSpecCleaned(r, spec)
    ensures Within(VMap(r), VMap(spec))
  {
    var deleted := DeleteKeys(spec, DeploymentFieldsToRemove);
    DeploymentFieldsFacts();
    assert GetMap(deleted, "template") == GetMap(spec, "template");
    r := CleanDeploymentTemplate(deleted);
    WithinTransitive(VMap(r), VMap(deleted), VMap(spec));
  }

  /** The metadata block of the template part of cleanSpec: a metadata map
      is cleaned by cleanMetadata; it is kept exactly when something is left
      in it, and dropped once empty. */
  ghost predicate TemplateMetadataCleaned(out: Dict, t: Dict) {
    match GetMap(t, "metadata")
    case Some(tm) =>
      if "metadata" in out then
        out["metadata"].VMap? && |out["metadata"].entries| > 0 && MetadataCleaned(out["metadata"].entries, tm)
      else MetadataCleaned(map[], tm)
    case None => ("metadata" in out <==> "metadata" in t) && ("metadata" in t ==> out["metadata"] == t["metadata"])
  }

  /** The spec block of the template part of cleanSpec: template.spec is
      handed to cleanPodTemplateSpec as if it were a template, and dropped
      when it is empty afterwards, which happens only when it was empty. */
  ghost predicate TemplatePodSpecCleaned(out: Dict, t: Dict) {
    match GetMap(t, "spec")
    case Some(ts) =>
      if |ts| == 0 then "spec" !in out
      else "spec" in out && out["spec"].VMap? && PodTemplateCleaned(out["spec"].entries, ts, ContainerFieldsToRemove)
    case None => ("spec" in out <==> "spec" in t) && ("spec" in t ==> out["spec"] == t["spec"])
  }

  ghost predicate TemplateCleaned(out: Dict, t: Dict) {
    SameExcept(out, t, {"metadata", "spec"}) && TemplateMetadataCleaned(out, t) && TemplatePodSpecCleaned(out, t)
  }

  /** What the template block of cleanSpec promises of the spec map. */
  ghost predicate TemplateBlockCleaned(out: Dict, spec: Dict) {
    match GetMap(spec, "template")
    case Some(t) =>
      SameExcept(out, spec, {"template"}) && "template" in out && out["template"].VMap?
      && TemplateCleaned(out["template"].entries, t)
    case None => out == spec
  }

  method CleanTemplateMetadata(t: Dict) returns (r: Dict)
    ensures SameExcept(r, t, {"metadata"}) && TemplateMetadataCleaned(r, t)
    ensures Within(VMap(r), VMap(t))
  {
    r := t;
    match GetMap(t, "metadata") {
      case Some(tm) =>
        var cleaned := CleanMetadata(tm);
        if |cleaned| == 0 {
          assert cleaned == map[];
          r := t - {"metadata"};
          WithinRemove(t, r);
        } else {
          r := t["metadata" := VMap(cleaned)];
          WithinUpdate(t, "metadata", VMap(cleaned));
        }
      case None =>
    }
  }

  method CleanTemplatePodSpec(t: Dict) returns (r: Dict)
    ensures SameExcept(r, t, {"spec"}) && TemplatePodSpecCleaned(r, t)
    ensures Within(VMap(r), VMap(t))
  {
    r := t;
    match GetMap(t, "spec") {
      case Some(ts) =>
        var cleaned := CleanPodTemplateSpec(ts);
        PodTemplateCleanedEmpty(cleaned, ts);
        if |cleaned| == 0 {
          r := t - {"spec"};
          WithinRemove(t, r);
        } else {
          r := t["spec" := VMap(cleaned)];
          WithinUpdate(t, "spec", VMap(cleaned));
        }
      case None =>
    }
  }

  /** The template block at the end of cleanSpec. */
  method CleanSpecTemplate(spec: Dict) returns (r: Dict)
    ensures TemplateBlockCleaned(r, spec)
    ensures Within(VMap(r), VMap(spec))
  {
    r := spec;
    match GetMap(spec, "template") {
      case Some(t) =>
        var t1 := CleanTemplateMetadata(t);
        var t2 := CleanTemplatePodSpec(t1);
        assert GetMap(t1, "spec") == GetMap(t, "spec");
        assert TemplatePodSpecCleaned(t2, t);
        WithinTransitive(VMap(t2), VMap(t1), VMap(t));
        r := spec["template" := VMap(t2)];
        WithinUpdate(spec, "template", VMap(t2));
      case None =>
    }
  }

  /** Because cleanSpec hands template.spec to cleanPodTemplateSpec, every
      entry of template.spec other than a nested "spec" (its containers
      among them) comes out of the template block as it went in. */
  lemma TemplateSpecPassedOneLevelTooHigh(out: Dict, spec: Dict, k: string)
    requires TemplateBlockCleaned(out, spec)
    requires Walkable(spec, ["template", "spec"]) && k in Descend(spec, ["template", "spec"]) && k != "spec"
    ensures Walkable(out, ["template", "spec"])
    ensures k in Descend(out, ["template", "spec"])
    ensures Descend(out, ["template", "spec"])[k] == Descend(spec, ["template", "spec"])[k]
  {
    var t := spec["template"].entries;
    var ts := t["spec"].entries;
    assert GetMap(spec, "template") == Some(t) && GetMap(t, "spec") == Some(ts);
    assert Descend(spec, ["template", "spec"]) == ts by {
      assert ["template", "spec"][1..] == ["spec"];
      assert ["spec"][1..] == [];
    }
    var ts2 := out["template"].entries["spec"].entries;
    assert Walkable(out, ["template", "spec"]) && Descend(out, ["template", "spec"]) == ts2 by {
      assert ["template", "spec"][1..] == ["spec"];
      assert ["spec"][1..] == [];
    }
  }

  /** The path deletions of cleanSpec delete a top-level key exactly when
      cleanSpec lists it. */
  lemma SpecPathsTopKeys(spec: Dict)
    ensures forall k :: k in RemoveAll(spec, SpecPaths(), true) <==> k in spec && k !in SpecTopFields
  {
    ExactTopKeys(spec, SpecTopFields, Under(["template", "spec"], TemplateSpecFields));
  }

  /** Wherever template.spec is a map after the path deletions of cleanSpec
      (and anything that only removes more), its seven fields are gone. */
  lemma TemplateSpecFieldsGone(r: Dict)
    requires Honoured(r, SpecPaths())
    ensures Walkable(r, ["template", "spec"]) ==>
      forall k :: k in TemplateSpecFields ==> k !in Descend(r, ["template", "spec"])
  {
    if Walkable(r, ["template", "spec"]) {
      forall k | k in TemplateSpecFields ensures k !in Descend(r, ["template", "spec"]) {
        var i :| 0 <= i < |TemplateSpecFields| && TemplateSpecFields[i] == k;
        assert SpecPaths()[26 + i] == ["template", "spec", k];
        assert Init(SpecPaths()[26 + i]) == ["template", "spec"];
      }
    }
  }

  /** The template block keeps the top-level keys of the spec. */
  lemma TemplateBlockKeys(out: Dict, spec: Dict)
    requires TemplateBlockCleaned(out, spec)
    ensures out.Keys == spec.Keys
  {
  }

  /** The path deletions of cleanSpec (the loop over fieldsToRemove, with
      exact matching): every path of the table is honoured, and a top-level
      key goes exactly when cleanSpec lists it. */
  method CleanSpecPaths(spec: Dict) returns (mid: Dict)
    ensures mid == RemoveAll(spec, SpecPaths(), true)
    ensures forall k :: k in mid <==> k in spec && k !in SpecTopFields
    ensures Honoured(mid, SpecPaths())
    ensures Within(VMap(mid), VMap(spec))
  {
    // specFieldsToRemove followed by the ten appended entries; the last
    // seven are "template.spec." followed by a field name
    var fieldsToRemove := SpecTopFields + JoinAll(Under(["template", "spec"], TemplateSpecFields));
    SpecPathsWellFormed();
    SplitAllJoinAll(SpecPaths());
    mid := RemoveEach(spec, fieldsToRemove, true);
    SpecPathsTopKeys(spec);
    RemoveAllHonoursEvery(spec, SpecPaths(), true);
  }

  /** The path deletions of cleanSpec leave every top-level entry other than
      the listed ones and the template exactly as it was. */
  lemma SpecPathsKeepOthers(spec: Dict, k: string)
    requires k in spec && k !in SpecTopFields && k != "template"
    ensures var mid := RemoveAll(spec, SpecPaths(), true); k in mid && mid[k] == spec[k]
  {
    var P := SpecPaths();
    forall i | 0 <= i < |P| ensures P[i][0] != k {
      if i < 26 {
        assert P[i] == [SpecTopFields[i]];
      } else {
        assert P[i] == ["template", "spec", TemplateSpecFields[i - 26]];
      }
    }
    RemoveAllExactKeepsEntry(spec, P, k);
  }

  /** The template block changes nothing outside the template. */
  lemma TemplateBlockFrame(out: Dict, spec: Dict)
    requires TemplateBlockCleaned(out, spec)
    ensures SameExcept(out, spec, {"template"})
  {
  }

  /** Whatever only changes the template after the path deletions keeps
      every top-level entry that cleanSpec does not list. */
  lemma SpecPathsFrame(r: Dict, mid: Dict, spec: Dict)
    requires mid == RemoveAll(spec, SpecPaths(), true)
    requires forall k :: k in mid <==> k in spec && k !in SpecTopFields
    requires SameExcept(r, mid, {"template"})
    ensures forall k :: k in r && k != "template" ==> r[k] == spec[k]
  {
    forall k | k in r && k != "template" ensures r[k] == spec[k] {
      SpecPathsKeepOthers(spec, k);
    }
  }

  /** What cleanSpec promises of the spec map: a top-level key goes exactly
      when cleanSpec lists it, every other entry but the template keeps its
      value, and the seven template.spec fields are absent wherever
      template.spec is a map. */
  ghost predicate SpecCleaned(out: Dict, spec: Dict) {
    && (forall k :: k in out <==> k in spec && k !in SpecTopFields)
    && (forall k :: k in out && k != "template" ==> out[k] == spec[k])
    && (Walkable(out, ["template", "spec"]) ==>
          forall k :: k in TemplateSpecFields ==> k !in Descend(out, ["template", "spec"]))
  }

  /** cleanSpec: the path deletions, then the template block. What the
      template block does inside the template is the contract of
      CleanSpecTemplate, applied to the result of CleanSpecPaths. */
  method CleanSpec(spec: Dict) returns (r: Dict)
    ensures SpecCleaned(r, spec)
    ensures Within(VMap(r), VMap(spec))
  {
    var mid := CleanSpecPaths(spec);
    r := CleanSpecTemplate(mid);
    WithinTransitive(VMap(r), VMap(mid), VMap(spec));
    TemplateBlockKeys(r, mid);
    TemplateBlockFrame(r, mid);
    SpecPathsFrame(r, mid, spec);
    SpecPathsWellFormed();
    HonouredWithin(r, mid, SpecPaths());
    TemplateSpecFieldsGone(r);
  }

  // --------------------------------------------------------------- configmap

  /** A string value that mentions either runtime marker cleanConfigMapData
      looks for. */
  predicate HasRuntimeMarker(v: Value) {
    v.VStr? && (Contains(v.str, "kubectl.kubernetes.io") || Contains(v.str, "kubernetes.io/"))
  }

  /** cleanConfigMapData: drop exactly the string values that mention a
      runtime marker; values of other types are kept whatever they hold. */
  method CleanConfigMapData(data: Dict) returns (r: Dict)
    ensures forall k :: k in r <==> k in data && !HasRuntimeMarker(data[k])
    ensures forall k :: k in r ==> r[k] == data[k]
  {
    r := data;
    var todo := data.Keys;
    while todo != {}
      invariant todo <= data.Keys
      invariant forall k :: k in r <==> k in data && (k in todo || !HasRuntimeMarker(data[k]))
      invariant forall k :: k in r ==> r[k] == data[k]
      decreases todo
    {
      var key :| key in todo;
      match data[key] {
        case VStr(strVal) =>
          if Contains(strVal, "kubectl.kubernetes.io") || Contains(strVal, "kubernetes.io/") {
            r := r - {key};
          }
        case _ =>
      }
      todo := todo - {key};
    }
  }

  // ------------------------------------------------------------ runtime paths

  /** removeRuntimeFields: split every entry of the table on '.' and delete
      its last segment from the map the walk reached. The guard on the
      number of parts always holds, as a split never returns no parts. */
  method RemoveRuntimeFields(m: Dict) returns (r: Dict)
    ensures r == RemoveAll(m, RuntimeFieldPaths(), false)
  {
    r := RemoveEach(m, RuntimeFieldsToRemove(), false);
  }

  /** The rows of the runtime table the lemmas below rely on. */
  lemma RuntimeRows()
    ensures var P := RuntimeFieldPaths();
      && P[0] == ["status"] && P[1] == ["template", "generation"]
      && P[2] == ["metadata", "generation"] && P[3] == ["metadata", "resourceVersion"]
      && P[4] == ["metadata", "selfLink"] && P[5] == ["metadata", "uid"]
      && P[6] == ["metadata", "creationTimestamp"] && P[7] == ["metadata", "deletionTimestamp"]
      && P[8] == ["metadata", "deletionGracePeriodSeconds"]
      && P[9] == ["metadata", "managedFields"] && P[10] == ["metadata", "labels"]
      && P[12] == ["status", "conditions"] && P[13] == ["status", "observedGeneration"]
      && P[14] == ["status", "loadBalancer"]
  {
  }

  /** The "status" row and the three status.* rows of the runtime table. */
  lemma StatusRows()
    ensures var P := RuntimeFieldPaths();
      && P[0] == ["status"] && P[12] == ["status", "conditions"]
      && P[13] == ["status", "observedGeneration"] && P[14] == ["status", "loadBalancer"]
      && P[0] == [P[12][0]] && P[0] == [P[13][0]] && P[0] == [P[14][0]]
  {
    RuntimeRows();
  }

  /** "status" goes first, so the three status.* entries that follow find
      no map under "status" and delete "conditions", "observedGeneration"
      and "loadBalancer" from the top level of the object instead. */
  lemma RuntimeStatusFallback(m: Dict)
    ensures var r := RemoveAll(m, RuntimeFieldPaths(), false);
      && "status" !in r
      && "conditions" !in r && "observedGeneration" !in r && "loadBalancer" !in r
  {
    var P := RuntimeFieldPaths();
    var r := RemoveAll(m, P, false);
    StatusRows();
    StatusFirstFallback(m, P, 12);
    assert "status" !in r && "conditions" !in r;
    StatusFirstFallback(m, P, 13);
    assert "observedGeneration" !in r;
    StatusFirstFallback(m, P, 14);
    assert "loadBalancer" !in r;
  }

  /** When the object has no map under "template", the entry
      "template.generation" deletes "generation" at the top level. */
  lemma RuntimeTemplateFallback(m: Dict)
    requires GetMap(m, "template").None?
    ensures "generation" !in RemoveAll(m, RuntimeFieldPaths(), false)
  {
    RuntimeRows();
    RemoveAllFallback(m, RuntimeFieldPaths(), 1);
  }

  /** When a map has no map under "metadata", as most maps the recursion of
      cleanupMap visits do (spec.selector, say), the metadata.* entries
      delete their leaves at its top level instead. */
  lemma RuntimeMetadataFallback(m: Dict)
    requires GetMap(m, "metadata").None?
    ensures var r := RemoveAll(m, RuntimeFieldPaths(), false);
      && "generation" !in r && "resourceVersion" !in r && "selfLink" !in r && "uid" !in r
      && "creationTimestamp" !in r && "deletionTimestamp" !in r
      && "deletionGracePeriodSeconds" !in r && "managedFields" !in r && "labels" !in r
  {
    var P := RuntimeFieldPaths();
    RuntimeRows();
    RemoveAllFallback(m, P, 2);
    RemoveAllFallback(m, P, 3);
    RemoveAllFallback(m, P, 4);
    RemoveAllFallback(m, P, 5);
    RemoveAllFallback(m, P, 6);
    RemoveAllFallback(m, P, 7);
    RemoveAllFallback(m, P, 8);
    RemoveAllFallback(m, P, 9);
    RemoveAllFallback(m, P, 10);
  }

  /** The metadata.* entries are honoured wherever metadata is a map after
      the table has run. */
  lemma RuntimeMetadataFields(m: Dict)
    ensures var r := RemoveAll(m, RuntimeFieldPaths(), false);
      GetMap(r, "metadata").Some? ==>
        var md := GetMap(r, "metadata").value;
        && "generation" !in md && "resourceVersion" !in md && "selfLink" !in md
        && "uid" !in md && "creationTimestamp" !in md && "deletionTimestamp" !in md
        && "deletionGracePeriodSeconds" !in md && "managedFields" !in md && "labels" !in md
  {
    var P := RuntimeFieldPaths();
    RuntimeRows();
    RemoveAllHonoursEvery(m, P, false);
    HonouredUnder(RemoveAll(m, P, false), P, "metadata", 2);
    HonouredUnder(RemoveAll(m, P, false), P, "metadata", 3);
    HonouredUnder(RemoveAll(m, P, false), P, "metadata", 4);
    HonouredUnder(RemoveAll(m, P, false), P, "metadata", 5);
    HonouredUnder(RemoveAll(m, P, false), P, "metadata", 6);
    HonouredUnder(RemoveAll(m, P, false), P, "metadata", 7);
    HonouredUnder(RemoveAll(m, P, false), P, "metadata", 8);
    HonouredUnder(RemoveAll(m, P, false), P, "metadata", 9);
    HonouredUnder(RemoveAll(m, P, false), P, "metadata", 10);
  }

  /** The key of the last-applied-configuration annotation. */
  const LastAppliedKey: string := "kubectl.kubernetes.io/" + "last-applied-configuration"

  /** The last-applied-configuration annotation survives removeRuntimeFields
      on its own. Splitting its entry on '.' cuts the annotation key into
      three segments, so the entry deletes "io/last-applied-configuration"
      from the deepest map the walk reaches (the annotations map itself,
      unless it holds maps under "kubectl" and "kubernetes") and never the
      dotted key. Inside cleanupMap the annotation is already gone, since
      cleanAnnotations runs first and removes every "kubectl.kubernetes.io/"
      key. */
  lemma LastAppliedAnnotationKept(m: Dict)
    requires Walkable(m, ["metadata", "annotations"]) && LastAppliedKey in Descend(m, ["metadata", "annotations"])
    ensures var r := RemoveAll(m, RuntimeFieldPaths(), false);
      Walkable(r, ["metadata", "annotations"]) ==> LastAppliedKey in Descend(r, ["metadata", "annotations"])
  {
    LastAppliedKeyHasDot();
    if Walkable(RemoveAll(m, RuntimeFieldPaths(), false), ["metadata", "annotations"]) {
      DottedKeysKept(m, RuntimeFieldPaths(), false, ["metadata", "annotations"], LastAppliedKey);
    }
  }

  lemma LastAppliedKeyHasDot()
    ensures '.' in LastAppliedKey
  {
    assert LastAppliedKey[7] == '.';
  }

  /** No runtime path starts with or ends in "spec" or "data": the table
      leaves those entries of the object alone. */
  lemma RuntimeLeavesSpecAndData(m: Dict)
    ensures var r := RemoveAll(m, RuntimeFieldPaths(), false);
      && ("spec" in m ==> "spec" in r && r["spec"] == m["spec"])
      && ("data" in m ==> "data" in r && r["data"] == m["data"])
  {
    RuntimeHeads();
    if "spec" in m {
      RemoveAllKeepsOthers(m, RuntimeFieldPaths(), false, "spec");
    }
    if "data" in m {
      RemoveAllKeepsOthers(m, RuntimeFieldPaths(), false, "data");
    }
  }

  lemma RuntimeHeads()
    ensures forall i :: 0 <= i < |RuntimeFieldPaths()| ==>
        && RuntimeFieldPaths()[i][0] in {"status", "template", "metadata"}
        && Last(RuntimeFieldPaths()[i]) != "spec" && Last(RuntimeFieldPaths()[i]) != "data"
  {
    CommonRuntimeHeads();
    LaterRuntimeHeads();
    forall i | 0 <= i < 15
      ensures RuntimeFieldPaths()[i] == if i < 10 then CommonRuntimePaths[i] else LaterRuntimePaths[i - 10]
    {
    }
  }

  // ---------------------------------------------------------------- cleanupMap

  /** A metadata map holds none of metadataFieldsToRemove. */
  ghost predicate MetadataOk(md: Option<Dict>) {
    md.Some? ==> forall k :: k in MetadataFieldsToRemove ==> k !in md.value
  }

  /** A spec map holds none of the top-level fields of cleanSpec, and its
      template.spec, where that is a map, none of the seven. */
  ghost predicate SpecOk(spec: Option<Dict>) {
    spec.Some? ==>
      && (forall k :: k in SpecTopFields ==> k !in spec.value)
      && (Walkable(spec.value, ["template", "spec"]) ==>
            forall k :: k in TemplateSpecFields ==> k !in Descend(spec.value, ["template", "spec"]))
  }

  ghost predicate DeploymentOk(spec: Option<Dict>) {
    spec.Some? ==> forall k :: k in DeploymentFieldsToRemove ==> k !in spec.value
  }

  ghost predicate ServiceOk(spec: Option<Dict>) {
    spec.Some? ==> "clusterIP" !in spec.value && "clusterIPs" !in spec.value
  }

  ghost predicate ConfigMapOk(data: Option<Dict>) {
    data.Some? ==> forall k :: k in data.value ==> !HasRuntimeMarker(data.value[k])
  }

  /** The kinds cleanDeploymentSpec is applied to. */
  predicate IsWorkloadKind(kind: Option<string>) {
    kind == Some("Deployment") || kind == Some("StatefulSet") || kind == Some("DaemonSet")
  }

  /** What the section cleaners of cleanupMap leave behind in an object of
      the given kind (a Secret's spec is not cleaned). */
  ghost predicate ObjectCleaned(r: Dict, kind: Option<string>) {
    && MetadataOk(GetMap(r, "metadata"))
    && (kind != Some("Secret") ==> SpecOk(GetMap(r, "spec")))
    && (IsWorkloadKind(kind) ==> DeploymentOk(GetMap(r, "spec")))
    && (kind == Some("Service") ==> ServiceOk(GetMap(r, "spec")))
    && (kind == Some("ConfigMap") ==> ConfigMapOk(GetMap(r, "data")))
  }

  /** `a` has the map entries of `b` under `key` with entries removed. */
  ghost predicate EntryWithin(a: Dict, b: Dict, key: string) {
    GetMap(a, key).Some? ==> GetMap(b, key).Some? && Within(VMap(GetMap(a, key).value), VMap(GetMap(b, key).value))
  }

  lemma EntriesWithin(a: Dict, b: Dict)
    requires Within(VMap(a), VMap(b))
    ensures EntryWithin(a, b, "metadata") && EntryWithin(a, b, "spec") && EntryWithin(a, b, "data")
  {
    if GetMap(a, "metadata").Some? { WithinGetMap(a, b, "metadata"); }
    if GetMap(a, "spec").Some? { WithinGetMap(a, b, "spec"); }
    if GetMap(a, "data").Some? { WithinGetMap(a, b, "data"); }
  }

  lemma MetadataOkWithin(a: Dict, b: Dict)
    requires EntryWithin(a, b, "metadata") && MetadataOk(GetMap(b, "metadata"))
    ensures MetadataOk(GetMap(a, "metadata"))
  {
  }

  lemma SpecOkWithin(a: Dict, b: Dict)
    requires EntryWithin(a, b, "spec")
    ensures SpecOk(GetMap(b, "spec")) ==> SpecOk(GetMap(a, "spec"))
    ensures DeploymentOk(GetMap(b, "spec")) ==> DeploymentOk(GetMap(a, "spec"))
    ensures ServiceOk(GetMap(b, "spec")) ==> ServiceOk(GetMap(a, "spec"))
  {
    if GetMap(a, "spec").Some? {
      var sa := GetMap(a, "spec").value;
      var sb := GetMap(b, "spec").value;
      if Walkable(sa, ["template", "spec"]) {
        WithinWalk(sa, sb, ["template", "spec"]);
      }
    }
  }

  lemma ConfigMapOkWithin(a: Dict, b: Dict)
    requires EntryWithin(a, b, "data") && ConfigMapOk(GetMap(b, "data"))
    ensures ConfigMapOk(GetMap(a, "data"))
  {
    if GetMap(a, "data").Some? {
      var da := GetMap(a, "data").value;
      var db := GetMap(b, "data").value;
      forall k | k in da ensures !HasRuntimeMarker(da[k]) {
        assert Within(da[k], db[k]);
      }
    }
  }

  /** Removing more entries keeps an object cleaned. */
  lemma ObjectCleanedWithin(a: Dict, b: Dict, kind: Option<string>)
    requires ObjectCleaned(b, kind) && Within(VMap(a), VMap(b))
    ensures ObjectCleaned(a, kind)
  {
    EntriesWithin(a, b);
    MetadataOkWithin(a, b);
    SpecOkWithin(a, b);
    if kind == Some("ConfigMap") {
      ConfigMapOkWithin(a, b);
    }
  }

  /** A metadata map, where the object has one, is replaced by what
      cleanMetadata makes of it. */
  ghost predicate MetadataEntryCleaned(out: Option<Dict>, md: Option<Dict>) {
    md.Some? ==> out.Some? && MetadataCleaned(out.value, md.value)
  }

  /** A spec map, where the object has one, is replaced by what cleanSpec
      makes of it. */
  ghost predicate SpecEntryCleaned(out: Option<Dict>, spec: Option<Dict>) {
    spec.Some? ==> out.Some? && SpecCleaned(out.value, spec.value)
  }

  /** What the switch on kind makes of a spec map: cleanDeploymentSpec for
      the workload kinds, the two cluster IP fields deleted for a Service,
      nothing for any other kind. */
  ghost predicate KindSpecCleaned(out: Dict, spec: Dict, kind: Option<string>) {
    if IsWorkloadKind(kind) then DeploymentSpecCleaned(out, spec)
    else if kind == Some("Service") then out == spec - {"clusterIP", "clusterIPs"}
    else out == spec
  }

  /** A spec map, where the object has one, is replaced by what the switch
      on kind makes of it. */
  ghost predicate KindEntryCleaned(out: Option<Dict>, spec: Option<Dict>, kind: Option<string>) {
    spec.Some? ==> out.Some? && KindSpecCleaned(out.value, spec.value, kind)
  }

  /** What cleanConfigMapData makes of a data map. */
  ghost predicate ConfigMapDataCleaned(out: Dict, data: Dict) {
    && (forall k :: k in out <==> k in data && !HasRuntimeMarker(data[k]))
    && (forall k :: k in out ==> out[k] == data[k])
  }

  /** A data map, where the object has one, is replaced by what
      cleanConfigMapData makes of it. */
  ghost predicate DataEntryCleaned(out: Option<Dict>, data: Option<Dict>) {
    data.Some? ==> out.Some? && ConfigMapDataCleaned(out.value, data.value)
  }

  /** A spec map, where the object has one, is replaced by what cleanSpec
      and then the switch on kind make of it; a Secret's spec is left as it
      is. */
  ghost predicate SpecThroughSections(out: Option<Dict>, spec: Option<Dict>, kind: Option<string>) {
    spec.Some? ==>
      && out.Some?
      && (kind == Some("Secret") ==> out == spec)
      && (kind != Some("Secret") ==> exists c :: SpecCleaned(c, spec.value) && KindSpecCleaned(out.value, c, kind))
  }

  /** The metadata step of cleanupMap. */
  method CleanMetadataSection(m: Dict) returns (s: Dict)
    ensures MetadataEntryCleaned(GetMap(s, "metadata"), GetMap(m, "metadata"))
    ensures MetadataOk(GetMap(s, "metadata"))
    ensures GetMap(s, "spec") == GetMap(m, "spec") && GetMap(s, "data") == GetMap(m, "data")
    ensures GetStr(s, "kind") == GetStr(m, "kind")
    ensures SameExcept(s, m, {"metadata"}) && s.Keys == m.Keys
    ensures !("metadata" in m && m["metadata"].VMap?) ==> s == m
    ensures Within(VMap(s), VMap(m))
  {
    s := m;
    match GetMap(m, "metadata") {
      case Some(metadata) =>
        var cleaned := CleanMetadata(metadata);
        WithinUpdate(m, "metadata", VMap(cleaned));
        GetAfterUpdate(m, "metadata", VMap(cleaned), "spec");
        GetAfterUpdate(m, "metadata", VMap(cleaned), "data");
        GetAfterUpdate(m, "metadata", VMap(cleaned), "kind");
        s := m["metadata" := VMap(cleaned)];
      case None =>
    }
  }

  lemma SpecOkOf(r: Dict, spec: Dict)
    requires SpecCleaned(r, spec)
    ensures SpecOk(Some(r))
  {
  }

  /** The spec step of cleanupMap (skipped for a Secret). */
  method CleanSpecSection(m: Dict) returns (s: Dict)
    ensures SpecEntryCleaned(GetMap(s, "spec"), GetMap(m, "spec"))
    ensures SpecOk(GetMap(s, "spec"))
    ensures GetMap(s, "metadata") == GetMap(m, "metadata") && GetMap(s, "data") == GetMap(m, "data")
    ensures GetStr(s, "kind") == GetStr(m, "kind")
    ensures SameExcept(s, m, {"spec"}) && s.Keys == m.Keys
    ensures !("spec" in m && m["spec"].VMap?) ==> s == m
    ensures Within(VMap(s), VMap(m))
  {
    s := m;
    match GetMap(m, "spec") {
      case Some(spec) =>
        var cleaned := CleanSpec(spec);
        SpecOkOf(cleaned, spec);
        WithinUpdate(m, "spec", VMap(cleaned));
        GetAfterUpdate(m, "spec", VMap(cleaned), "metadata");
        GetAfterUpdate(m, "spec", VMap(cleaned), "data");
        GetAfterUpdate(m, "spec", VMap(cleaned), "kind");
        s := m["spec" := VMap(cleaned)];
      case None =>
    }
  }

  /** The Deployment, StatefulSet and DaemonSet case of the switch on kind. */
  method CleanWorkloadSection(m: Dict) returns (s: Dict)
    ensures KindEntryCleaned(GetMap(s, "spec"), GetMap(m, "spec"), Some("Deployment"))
    ensures DeploymentOk(GetMap(s, "spec"))
    ensures GetMap(s, "metadata") == GetMap(m, "metadata") && GetMap(s, "data") == GetMap(m, "data")
    ensures GetStr(s, "kind") == GetStr(m, "kind")
    ensures SameExcept(s, m, {"spec"}) && s.Keys == m.Keys
    ensures !("spec" in m && m["spec"].VMap?) ==> s == m
    ensures Within(VMap(s), VMap(m))
  {
    s := m;
    match GetMap(m, "spec") {
      case Some(spec) =>
        var cleaned := CleanDeploymentSpec(spec);
        WithinUpdate(m, "spec", VMap(cleaned));
        GetAfterUpdate(m, "spec", VMap(cleaned), "metadata");
        GetAfterUpdate(m, "spec", VMap(cleaned), "data");
        GetAfterUpdate(m, "spec", VMap(cleaned), "kind");
        s := m["spec" := VMap(cleaned)];
      case None =>
    }
  }

  /** The Service case of the switch on kind. */
  method CleanServiceSection(m: Dict) returns (s: Dict)
    ensures KindEntryCleaned(GetMap(s, "spec"), GetMap(m, "spec"), Some("Service"))
    ensures GetMap(s, "metadata") == GetMap(m, "metadata") && GetMap(s, "data") == GetMap(m, "data")
    ensures GetStr(s, "kind") == GetStr(m, "kind")
    ensures SameExcept(s, m, {"spec"}) && s.Keys == m.Keys
    ensures !("spec" in m && m["spec"].VMap?) ==> s == m
    ensures Within(VMap(s), VMap(m))
  {
    s := m;
    match GetMap(m, "spec") {
      case Some(spec) =>
        var cleaned := spec - {"clusterIP", "clusterIPs"};
        WithinRemove(spec, cleaned);
        WithinUpdate(m, "spec", VMap(cleaned));
        GetAfterUpdate(m, "spec", VMap(cleaned), "metadata");
        GetAfterUpdate(m, "spec", VMap(cleaned), "data");
        GetAfterUpdate(m, "spec", VMap(cleaned), "kind");
        s := m["spec" := VMap(cleaned)];
      case None =>
    }
  }

  /** The ConfigMap case of the switch on kind. */
  method CleanConfigMapSection(m: Dict) returns (s: Dict)
    ensures DataEntryCleaned(GetMap(s, "data"), GetMap(m, "data"))
    ensures ConfigMapOk(GetMap(s, "data"))
    ensures GetMap(s, "metadata") == GetMap(m, "metadata") && GetMap(s, "spec") == GetMap(m, "spec")
    ensures GetStr(s, "kind") == GetStr(m, "kind")
    ensures SameExcept(s, m, {"data"}) && s.Keys == m.Keys
    ensures !("data" in m && m["data"].VMap?) ==> s == m
    ensures Within(VMap(s), VMap(m))
  {
    s := m;
    match GetMap(m, "data") {
      case Some(data) =>
        var cleaned := CleanConfigMapData(data);
        WithinRemove(data, cleaned);
        WithinUpdate(m, "data", VMap(cleaned));
        GetAfterUpdate(m, "data", VMap(cleaned), "metadata");
        GetAfterUpdate(m, "data", VMap(cleaned), "spec");
        GetAfterUpdate(m, "data", VMap(cleaned), "kind");
        s := m["data" := VMap(cleaned)];
      case None =>
    }
  }

  /** The switch on kind in cleanupMap. */
  method CleanKindSection(m: Dict) returns (s: Dict)
    ensures KindEntryCleaned(GetMap(s, "spec"), GetMap(m, "spec"), GetStr(m, "kind"))
    ensures GetStr(m, "kind") == Some("ConfigMap") ==> DataEntryCleaned(GetMap(s, "data"), GetMap(m, "data"))
    ensures GetStr(m, "kind") != Some("ConfigMap") ==> SameExcept(s, m, {"spec"})
    ensures GetStr(m, "kind") != Some("ConfigMap") ==> GetMap(s, "data") == GetMap(m, "data")
    ensures GetMap(s, "metadata") == GetMap(m, "metadata") && GetStr(s, "kind") == GetStr(m, "kind")
    ensures IsWorkloadKind(GetStr(m, "kind")) ==> DeploymentOk(GetMap(s, "spec"))
    ensures GetStr(m, "kind") == Some("Service") ==> ServiceOk(GetMap(s, "spec"))
    ensures GetStr(m, "kind") == Some("ConfigMap") ==> ConfigMapOk(GetMap(s, "data"))
    ensures SameExcept(s, m, {"spec", "data"}) && s.Keys == m.Keys
    ensures forall k :: k in m && !m[k].VMap? ==> s[k] == m[k]
    ensures (!IsWorkloadKind(GetStr(m, "kind")) && GetStr(m, "kind") != Some("Service")
      && GetStr(m, "kind") != Some("ConfigMap")) ==> s == m
    ensures Within(VMap(s), VMap(m))
  {
    s := m;
    var kind := GetStr(m, "kind");
    if IsWorkloadKind(kind) {
      s := CleanWorkloadSection(m);
    } else if kind == Some("Service") {
      s := CleanServiceSection(m);
    } else if kind == Some("ConfigMap") {
      s := CleanConfigMapSection(m);
    }
  }

  /** The metadata and spec steps of cleanupMap; a Secret keeps its spec. */
  method CleanMetadataAndSpec(m: Dict) returns (s: Dict)
    ensures MetadataEntryCleaned(GetMap(s, "metadata"), GetMap(m, "metadata"))
    ensures GetStr(m, "kind") != Some("Secret") ==> SpecEntryCleaned(GetMap(s, "spec"), GetMap(m, "spec"))
    ensures GetStr(m, "kind") == Some("Secret") ==> GetMap(s, "spec") == GetMap(m, "spec")
    ensures GetMap(s, "data") == GetMap(m, "data") && GetStr(s, "kind") == GetStr(m, "kind")
    ensures MetadataOk(GetMap(s, "metadata"))
    ensures GetStr(m, "kind") != Some("Secret") ==> SpecOk(GetMap(s, "spec"))
    ensures SameExcept(s, m, {"metadata", "spec"}) && s.Keys == m.Keys
    ensures forall k :: k in m && !m[k].VMap? ==> s[k] == m[k]
    ensures GetStr(m, "kind") == Some("Secret") ==> SameExcept(s, m, {"metadata"})
    ensures Within(VMap(s), VMap(m))
  {
    var s1 := CleanMetadataSection(m);
    s := s1;
    if GetStr(m, "kind") != Some("Secret") {
      s := CleanSpecSection(s1);
      WithinTransitive(VMap(s), VMap(s1), VMap(m));
    }
  }

  /** cleanSpec (skipped for a Secret) followed by the switch on kind. */
  lemma SpecThroughKind(spec: Option<Dict>, mid: Option<Dict>, out: Option<Dict>, kind: Option<string>)
    requires kind != Some("Secret") ==> SpecEntryCleaned(mid, spec)
    requires kind == Some("Secret") ==> mid == spec
    requires KindEntryCleaned(out, mid, kind)
    ensures SpecThroughSections(out, spec, kind)
  {
    if spec.Some? && kind != Some("Secret") {
      assert SpecCleaned(mid.value, spec.value) && KindSpecCleaned(out.value, mid.value, kind);
    }
  }

  /** The section cleaners at the head of cleanupMap: metadata, spec unless
      the object is a Secret, then the cleanup chosen by kind. Entries that
      are not maps, and every key, are left as they are. */
  method CleanSections(m: Dict) returns (s: Dict)
    ensures MetadataEntryCleaned(GetMap(s, "metadata"), GetMap(m, "metadata"))
    ensures SpecThroughSections(GetMap(s, "spec"), GetMap(m, "spec"), GetStr(m, "kind"))
    ensures GetStr(m, "kind") == Some("ConfigMap") ==> DataEntryCleaned(GetMap(s, "data"), GetMap(m, "data"))
    ensures GetStr(m, "kind") != Some("ConfigMap") ==> GetMap(s, "data") == GetMap(m, "data")
    ensures SameExcept(s, m, {"metadata", "spec", "data"})
    ensures ObjectCleaned(s, GetStr(m, "kind"))
    ensures s.Keys == m.Keys
    ensures forall k :: k in m && !m[k].VMap? ==> s[k] == m[k]
    ensures GetStr(m, "kind") == Some("Secret") ==> SameExcept(s, m, {"metadata"})
    ensures Within(VMap(s), VMap(m))
  {
    var s2 := CleanMetadataAndSpec(m);
    s := CleanKindSection(s2);
    SpecThroughKind(GetMap(m, "spec"), GetMap(s2, "spec"), GetMap(s, "spec"), GetStr(m, "kind"));
    SameExceptTransitive(s, s2, m, {"spec", "data"}, {"metadata", "spec"}, {"metadata", "spec", "data"});
    EntriesWithin(s, s2);
    MetadataOkWithin(s, s2);
    SpecOkWithin(s, s2);
    WithinTransitive(VMap(s), VMap(s2), VMap(m));
  }

  /** Whenever the object is a Secret, every scalar entry of its spec whose
      key is not the last segment of a runtime path is still there. */
  ghost predicate SecretSpecKept(r: Dict, m: Dict) {
    GetStr(m, "kind") == Some("Secret") ==> SpecScalarsKept(r, m, RuntimeLeaves())
  }

  /** cleanupMap: the section cleaners, then the rest. */
  method CleanupMap(m: Dict) returns (r: Dict)
    ensures SweptFrom(r, m, RuntimeLeaves())
    ensures ObjectCleaned(r, GetStr(m, "kind"))
    ensures SecretSpecKept(r, m)
    decreases Height(VMap(m)), 2
  {
    var s := CleanSections(m);
    WithinHeight(VMap(s), VMap(m));
    r := CleanRuntimeAndChildren(s);
    WithinTransitive(VMap(r), VMap(s), VMap(m));
    ObjectCleanedWithin(r, s, GetStr(m, "kind"));
    ScalarsThroughSections(m, s, r, RuntimeLeaves());
    if GetStr(m, "kind") == Some("Secret") {
      SpecScalarsThroughSections(m, s, r, RuntimeLeaves());
    }
  }

  /** The rest of cleanupMap: removeRuntimeFields, the recursion into every
      value, and the sweep of empty maps. The runtime paths never reach into
      the spec, so its scalars are swept only by the recursion, which keeps
      them. */
  method CleanRuntimeAndChildren(s: Dict) returns (r: Dict)
    ensures SweptFrom(r, s, RuntimeLeaves())
    ensures SpecScalarsKept(r, s, RuntimeLeaves())
    decreases Height(VMap(s)), 1
  {
    var t := RemoveRuntimeFields(s);
    WithinHeight(VMap(t), VMap(s));
    var c := CleanChildren(t);
    r := DropEmptyMaps(c);
    RuntimeStatusFallback(s);
    SweepWithin(t, c, r, RuntimeLeaves());
    WithinTransitive(VMap(r), VMap(t), VMap(s));
    SweepScalars(s, RuntimeFieldPaths(), c, r);
    if GetMap(s, "spec").Some? {
      RuntimeLeavesSpecAndData(s);
      SpecScalarsSurvive(s, t, c, r, RuntimeLeaves());
    }
  }

  /** The recursive loop of cleanupMap over the values of the map. */
  method CleanChildren(d: Dict) returns (r: Dict)
    ensures r.Keys == d.Keys
    ensures forall k :: k in d ==> ChildSwept(r[k], d[k], RuntimeLeaves())
    decreases Height(VMap(d)), 0
  {
    r := d;
    var todo := d.Keys;
    while todo != {}
      invariant todo <= d.Keys && r.Keys == d.Keys
      invariant forall k :: k in d && k !in todo ==> ChildSwept(r[k], d[k], RuntimeLeaves())
      invariant forall k :: k in todo ==> r[k] == d[k]
      decreases todo
    {
      var key :| key in todo;
      assert Height(d[key]) < Height(VMap(d));
      var cleaned := CleanChild(d[key]);
      r := r[key := cleaned];
      todo := todo - {key};
    }
  }

  /** The type switch in the loop of cleanupMap: a map value is cleaned by
      cleanupMap, a list value element by element, anything else is kept. */
  method CleanChild(v: Value) returns (out: Value)
    ensures ChildSwept(out, v, RuntimeLeaves())
    decreases Height(v), 3
  {
    out := v;
    match v {
      case VMap(e) =>
        var cleaned := CleanupMap(e);
        out := VMap(cleaned);
      case VList(items) =>
        var cleaned := CleanItems(items);
        out := VList(cleaned);
      case _ =>
    }
  }

  /** The loop over a list value: every element that is a map is cleaned by
      cleanupMap; other elements, lists among them, are left alone. */
  method CleanItems(items: seq<Value>) returns (out: seq<Value>)
    ensures ItemsSwept(out, items, RuntimeLeaves())
    decreases Height(VList(items)), 0
  {
    out := items;
    for i := 0 to |items|
      invariant |out| == |items|
      invariant forall j :: i <= j < |items| ==> out[j] == items[j]
      invariant forall j :: 0 <= j < i ==>
        if items[j].VMap? then out[j].VMap? && SweptFrom(out[j].entries, items[j].entries, RuntimeLeaves())
        else out[j] == items[j]
    {
      match items[i] {
        case VMap(e) =>
          assert Height(items[i]) < Height(VList(items));
          var cleaned := CleanupMap(e);
          out := out[i := VMap(cleaned)];
        case _ =>
      }
    }
  }

  // ------------------------------------------------------------ whole object

  /** cleanKubernetesObject without the schema lookup, which changes nothing:
      "namespace" leaves a metadata map and "replicas" a spec map. */
  method CleanKubernetesObject(obj: Dict) returns (r: Dict)
    ensures SameExcept(r, obj, {"metadata", "spec"})
    ensures match GetMap(obj, "metadata")
      case Some(md) => GetMap(r, "metadata").Some? && KeysDeleted(GetMap(r, "metadata").value, md, ["namespace"])
      case None => ("metadata" in r <==> "metadata" in obj) && ("metadata" in obj ==> r["metadata"] == obj["metadata"])
    ensures match GetMap(obj, "spec")
      case Some(spec) => GetMap(r, "spec").Some? && KeysDeleted(GetMap(r, "spec").value, spec, ["replicas"])
      case None => ("spec" in r <==> "spec" in obj) && ("spec" in obj ==> r["spec"] == obj["spec"])
    ensures Within(VMap(r), VMap(obj))
  {
    r := obj;
    match GetMap(obj, "metadata") {
      case Some(md) =>
        var cleaned := DeleteKeys(md, ["namespace"]);
        WithinUpdate(r, "metadata", VMap(cleaned));
        r := r["metadata" := VMap(cleaned)];
      case None =>
    }
    ghost var r1 := r;
    match GetMap(r, "spec") {
      case Some(spec) =>
        var cleaned := DeleteKeys(spec, ["replicas"]);
        WithinUpdate(r, "spec", VMap(cleaned));
        r := r["spec" := VMap(cleaned)];
      case None =>
    }
    WithinTransitive(VMap(r), VMap(r1), VMap(obj));
  }

  /** One document of cleanupManifest: skipped when empty, otherwise cleaned
      by cleanupMap and then cleanKubernetesObject. */
  method CleanDocument(doc: Dict) returns (out: Option<Dict>)
    ensures out.None? <==> IsEmptyDocument(doc)
    ensures out.Some? ==>
      && Within(VMap(out.value), VMap(doc))
      && ObjectCleaned(out.value, GetStr(doc, "kind"))
      && "status" !in out.value
      && (GetMap(out.value, "metadata").Some? ==> "namespace" !in GetMap(out.value, "metadata").value)
      && (GetMap(out.value, "spec").Some? ==> "replicas" !in GetMap(out.value, "spec").value)
  {
    if IsEmptyDocument(doc) {
      return None;
    }
    var cleaned := CleanupMap(doc);
    var obj := CleanKubernetesObject(cleaned);
    WithinTransitive(VMap(obj), VMap(cleaned), VMap(doc));
    ObjectCleanedWithin(obj, cleaned, GetStr(doc, "kind"));
    assert "status" !in cleaned;
    out := Some(obj);
  }
}
