/** The workload cleanup that both versions share: the spec fields table,
    the pod fields that cleanPodTemplateSpec deletes and what it promises,
    for a given list of container fields (the two versions delete different
    container fields). */
module Workloads {
  import opened Tree
  import opened Edits

  /** specFieldsToRemove; the two versions carry the same twenty-three entries. */
  const SpecFieldsToRemove: seq<string> := [
    "progressDeadlineSeconds",
    "revisionHistoryLimit",
    "terminationMessagePath",
    "terminationMessagePolicy",
    "dnsPolicy",
    "schedulerName",
    "securityContext",
    "terminationGracePeriodSeconds",
    "serviceAccount",
    "nodeName",
    "hostname",
    "subdomain",
    "clusterIP",
    "clusterIPs",
    "volumeName",
    "volumeClaimTemplate",
    "serviceAccountName",
    "automountServiceAccountToken",
    "nodeSelector",
    "tolerations",
    "hostNetwork",
    "hostPID",
    "hostIPC"
  ]

  /** The pod-spec fields cleanPodTemplateSpec deletes; the same ten in both versions. */
  const PodFieldsToRemove: seq<string> := [
    "nodeName",
    "serviceAccountName",
    "automountServiceAccountToken",
    "dnsPolicy",
    "nodeSelector",
    "tolerations",
    "schedulerName",
    "priorityClassName",
    "enableServiceLinks",
    "preemptionPolicy"
  ]

  /** Every map element of `items` has lost exactly `containerFields`; every
      other element is as it was. */
  ghost predicate ContainersCleaned(out: seq<Value>, items: seq<Value>, containerFields: seq<string>) {
    && |out| == |items|
    && forall i :: 0 <= i < |items| ==>
         if items[i].VMap? then out[i].VMap? && KeysDeleted(out[i].entries, items[i].entries, containerFields)
         else out[i] == items[i]
  }

  /** A pod spec without the pod fields, whose list of containers (if it is a
      list) is cleaned element by element; every other entry unchanged. */
  ghost predicate PodSpecCleaned(out: Dict, spec: Dict, containerFields: seq<string>) {
    && (forall k :: k != "containers" ==> (k in out <==> k in spec && k !in PodFieldsToRemove))
    && (forall k :: k != "containers" && k in out ==> out[k] == spec[k])
    && match GetList(spec, "containers")
       case Some(cs) =>
         "containers" in out && out["containers"].VList? && ContainersCleaned(out["containers"].items, cs, containerFields)
       case None =>
         && ("containers" in out <==> "containers" in spec)
         && ("containers" in spec ==> out["containers"] == spec["containers"])
  }

  /** cleanPodTemplateSpec: only the entry "spec" of the template changes,
      and only when it is a map. */
  ghost predicate PodTemplateCleaned(out: Dict, template: Dict, containerFields: seq<string>) {
    match GetMap(template, "spec")
    case Some(spec) =>
      && "spec" in out && out["spec"].VMap? && PodSpecCleaned(out["spec"].entries, spec, containerFields)
      && (forall k :: k != "spec" ==> (k in out <==> k in template))
      && (forall k :: k != "spec" && k in out ==> out[k] == template[k])
    case None => out == template
  }

  /** The pod-spec half of cleanPodTemplateSpec, given the cleaned containers. */
  method CleanPodSpec(spec: Dict, containers: Option<seq<Value>>, containerFields: seq<string>) returns (r: Dict)
    requires containers.Some? <==> GetList(spec, "containers").Some?
    requires containers.Some? ==>
      ContainersCleaned(containers.value, GetList(spec, "containers").value, containerFields)
      && Within(VList(containers.value), VList(GetList(spec, "containers").value))
    ensures PodSpecCleaned(r, spec, containerFields)
    ensures Within(VMap(r), VMap(spec))
  {
    r := DeleteKeys(spec, PodFieldsToRemove);
    assert "containers" !in PodFieldsToRemove;
    match containers {
      case Some(cs) =>
        r := r["containers" := VList(cs)];
        WithinUpdate(spec, "containers", VList(cs));
        forall k | k in r ensures Within(r[k], spec[k]) {
          if k != "containers" {
            assert r[k] == spec[k];
          }
        }
      case None =>
    }
  }
}
