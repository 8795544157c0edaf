# Kleanup cleaners in Dafny

Kleanup reads Kubernetes manifests (YAML) and strips the fields a cluster
adds to an object: status, generation, uid, managed fields, default pod and
container settings, kubectl and Helm annotations, and so on. It writes out
a manifest that can be applied again elsewhere. The work is done by a family
of routines that edit a decoded document in place. A decoded document is a
tree of string-keyed maps, lists and scalars. The repository holds two
versions of these routines:

- `Kleanup.go` is the later version. It has longer tables, dotted paths in
  `cleanSpec`, a ConfigMap data filter, and deletes the namespace.
- `Klean.go` is the earlier version. It overwrites the namespace with
  "default".

This project models both versions, each as its own module, and proves what
every routine does to the tree.

Modules:

- `Tree` (tree.dfy): the document tree, plus the relations the contracts use.
  - `Within(a, b)`: `a` is `b` with map entries removed at any depth.
  - `Swept`: no visited map has a "status" key or an empty-map value.
  - `Height`: the measure that bounds the recursion of cleanupMap.
- `Text` (text.dfy): `strings.HasPrefix`, `strings.Contains` and
  `strings.Split` with a one-character separator.
- `Edits` (edits.dfy): the edits that are identical in both versions.
  - The delete loops over a field table.
  - `cleanAnnotations` and its prefix table.
  - The annotations block of `cleanMetadata`.
  - The empty-map sweep at the end of `cleanupMap`.
- `Paths` (paths.dfy): walking a dotted path down through nested maps.
  - `removeRuntimeFields` deletes the last segment from whatever map the walk
    reached (`RemoveReached`).
  - `cleanSpec` in `Kleanup.go` deletes only when the whole walk succeeded
    (`RemoveExact`).
  - `RemoveAll` applies a whole table in order.
- `Workloads` (workloads.dfy): what both versions share about workloads.
  - The spec and pod field tables.
  - What `cleanPodTemplateSpec` promises, for a given list of container
    fields.
- `Runtime` (runtime.dfy): the ten runtime paths both versions start their
  table with.
- `Kleanup` (kleanup.dfy) and `Klean` (klean.dfy): the tables and routines of
  each version.

A Go routine that mutates a map becomes a method that takes the map's
contents and returns the new contents. The caller stores the result back
where the map was. Loops stay loops:

- A `range` over a map that deletes as it goes becomes a loop over a
  shrinking set of keys.
- A walk down a dotted path becomes a loop that moves a `current` map down
  the tree.
- The recursion of `cleanupMap` becomes mutually recursive methods. They
  terminate on the height of the tree, which only shrinks because every
  cleaner returns a tree `Within` its input.

Each dotted table (`runtimeFieldsToRemove`, the appended part of
`cleanSpec`'s list) is written as a list of segments. The dotted strings the
code splits are the segments joined with '.'. `SplitAllJoinAll` proves that
splitting them gives the segments back, so the loop that calls `Split` sees
exactly the table as written. One row has more segments than it looks: the
`runtimeFieldsToRemove` entry for the last-applied-configuration annotation
(`Kleanup.go:57`) has five, because its key contains dots.

## Model

| member | source | states |
|---|---|---|
| Text.Split | Kleanup.go:392 | `strings.Split` with a one-character separator: at least one part, no part contains the separator, and joining the parts with it gives the string back |
| Text.SplitJoin | Kleanup.go:179 | round trip: splitting a join of separator-free parts returns exactly those parts |
| Edits.DeleteKeys | Kleanup.go:138-140 | a run of `delete(d, field)` over a table: a key survives exactly when it is not in the table, and survivors keep their values (the same loop serves every field table of both versions) |
| Edits.MatchesAnyPrefix | Kleanup.go:114-119 | the inner loop of `cleanAnnotations` answers true exactly when some prefix of the table is a prefix of the key |
| Edits.RemovePrefixed | Kleanup.go:113-124 | deleting while ranging keeps exactly the keys with none of the prefixes, with their values, whatever the visiting order |
| Edits.CleanAnnotations | Kleanup.go:112-125 | `cleanAnnotations` (identical at Klean.go:102-115): an annotation is dropped exactly when its key starts with one of the ten prefixes; every other annotation keeps its value |
| Edits.PrefixFilterIdempotent | Kleanup.go:112-125 | filtering a second time with the same prefixes removes nothing |
| Edits.CleanAnnotationsEntry | Kleanup.go:130-135 | the annotations block of `cleanMetadata` (Klean.go:124-129): a map of annotations is filtered and the entry is deleted exactly when nothing is left; a non-map value and every other key are untouched |
| Edits.ReplaceOrDrop | Kleanup.go:151-153 | a filtered map is written back, or its entry is deleted when the filter left it empty |
| Edits.DropEmptyMaps | Kleanup.go:382-386 | the last loop of `cleanupMap` deletes exactly the entries whose value is an empty map and keeps every other entry unchanged |
| Paths.RemoveReached | Kleanup.go:393-403 | one path of `removeRuntimeFields`: when the leading segments lead to maps, the last segment goes from the map they name; otherwise it goes from the deepest map reached, even the root; only that key is removed anywhere (which map is stated by `Paths.GraftReached`) |
| Paths.RemoveExact | Kleanup.go:179-191 | one path of `cleanSpec`'s loop: the last segment is deleted only when every earlier segment resolves to a map; otherwise the spec is returned unchanged (stated by `Paths.GraftExact`) |
| Paths.GraftReached | Kleanup.go:393-403 | where the walk of `removeRuntimeFields` stops (the last map it could enter), deleting the last segment there and putting the edited map back in place is exactly `RemoveReached` |
| Paths.GraftExact | Kleanup.go:180-190 | where the walk of `cleanSpec` stops: when it got through every earlier segment, deleting the last segment there is exactly `RemoveExact`; when it stopped early, `RemoveExact` leaves the spec unchanged |
| Paths.RemoveReachedPath | Kleanup.go:392-403 | the `current`-walking loop of `removeRuntimeFields` computes `RemoveReached` |
| Paths.RemoveExactPath | Kleanup.go:179-191 | the `current`-walking loop of `cleanSpec` computes `RemoveExact` |
| Paths.RemoveEach | Kleanup.go:391-404 | the outer loop over a dotted table (splitting each entry inside the loop) equals `RemoveAll` over the split table |
| Paths.RemoveAll | Kleanup.go:391-404 | a table applied in order removes entries only, and only keys that are the last segment of some path |
| Paths.RemoveAllStrict | Kleanup.go:391-404 | after the whole table, wherever a path's leading segments lead to maps, its last segment is absent (later paths never bring a key back) |
| Paths.RemoveAllHonoursEvery | Kleanup.go:391-404 | every path of the table is honoured in the result |
| Paths.RemoveAllFallback | Kleanup.go:394-403 | fallback: a two-segment path whose first segment is not a map deletes its second segment from the top level |
| Paths.StatusFirstFallback | Kleanup.go:46-59 | with a one-segment path first, a later two-segment path under the same key always deletes its leaf from the top level |
| Paths.FirstTopKeyRemoved | Klean.go:41 | a one-segment first path always removes its key from the top level |
| Paths.RemoveAllKeepsOthers | Kleanup.go:391-404 | a top-level entry that no path starts with or ends in comes through unchanged |
| Paths.RemoveAllKeepsScalars | Kleanup.go:391-404 | a top-level scalar whose key is no path's last segment comes through unchanged |
| Paths.DottedKeysKept | Kleanup.go:392 | a key containing '.' is never deleted by a table whose segments come from splitting on '.' |
| Paths.RemoveAllExactKeepsEntry | Kleanup.go:178-192 | with exact matching, a top-level entry whose key starts no path comes through the table with its value unchanged |
| Paths.ExactTopKeys | Kleanup.go:178-192 | with exact matching, a top-level key goes exactly when the table lists it as a one-segment path |
| Paths.SplitAllJoinAll | Kleanup.go:179 | splitting the joined table gives the segments back |
| Paths.SweepScalars | Kleanup.go:365-386 | top-level scalars survive the runtime table, the recursion and the sweep unless a path ends in their key |
| Tree.WithinHeight | Kleanup.go:368-379 | removing entries never makes a tree deeper, so the recursion of `cleanupMap` terminates |
| Tree.SweepWithin | Kleanup.go:368-386 | after the recursion and the sweep, the map is swept and within what the recursion started from |
| Tree.SpecScalarsSurvive | Kleanup.go:368-386 | a spec that reaches the recursion unchanged keeps its scalars through it |
| Tree.EmptyMapsInListsKept | Kleanup.go:372-377 | an empty map that is an element of a list is kept, because the sweep looks only at map values |
| Workloads.CleanPodSpec | Kleanup.go:239-264 | the pod-spec half of `cleanPodTemplateSpec`: the ten pod fields are gone, the containers list is replaced by its cleaned elements, and everything else is unchanged |
| Kleanup.RuntimeFieldPaths | Kleanup.go:45-61 | `runtimeFieldsToRemove` as segments: fifteen non-empty, dot-free paths |
| Kleanup.RuntimeFieldsToRemove | Kleanup.go:45-61 | the fifteen dotted strings, which `Split` turns back into the segment table |
| Kleanup.SpecPaths | Kleanup.go:165-176 | the list `cleanSpec` walks: 26 one-segment paths (specFieldsToRemove plus three), then seven under template.spec |
| Kleanup.SpecPathsWellFormed | Kleanup.go:165-176 | the dotted list `cleanSpec` builds is exactly the joined `SpecPaths` |
| Kleanup.CleanLabels | Kleanup.go:143-154 | the labels block filters labels by the three prefixes and drops them once empty; run on a map without "labels", as in `cleanMetadata`, it changes nothing |
| Kleanup.CleanMetadata | Kleanup.go:128-160 | none of the eleven fields is left (labels and namespace among them), annotations are filtered and dropped once empty, and every other entry is unchanged |
| Kleanup.MetadataKeyNeverDeleted | Kleanup.go:157-159 | the final delete of a key named "metadata" never removes anything: a "metadata" entry inside the metadata map survives |
| Kleanup.KeptPortsShape | Kleanup.go:288-298 | every port the port loop would keep is a non-empty map whose protocol is not "TCP" |
| Kleanup.CleanPorts | Kleanup.go:286-304 | the port loop builds `KeptPorts` of the list, writes it back, or deletes "ports" when nothing is kept |
| Kleanup.CleanContainerSpec | Kleanup.go:268-305 | exactly the nine fields are deleted; "ports" is always absent because it is deleted before the port loop, which then finds nothing |
| Kleanup.CleanContainers | Kleanup.go:257-263 | every map element of containers loses exactly the nine fields; other elements are unchanged |
| Kleanup.CleanPodTemplateSpec | Kleanup.go:238-265 | acts only when template.spec is a map: the pod fields go, each map container is cleaned, and nothing else changes |
| Kleanup.PodTemplateCleanedEmpty | Kleanup.go:229-233 | a cleaned template is empty exactly when it was empty, so only an empty template is dropped |
| Kleanup.CleanDeploymentTemplate | Kleanup.go:228-234 | a template map is cleaned and dropped when empty; other entries are untouched |
| Kleanup.CleanDeploymentSpec | Kleanup.go:212-235 | replicas, paused, progressDeadlineSeconds, revisionHistoryLimit, strategy and selector are gone, the template is cleaned, and every other entry is unchanged |
| Kleanup.CleanTemplateMetadata | Kleanup.go:196-201 | template.metadata is cleaned by `cleanMetadata`; it stays exactly when something is left in it, and is deleted once empty |
| Kleanup.CleanTemplatePodSpec | Kleanup.go:202-207 | template.spec itself is handed to `cleanPodTemplateSpec`, which looks for a further "spec" inside it, and is deleted when empty |
| Kleanup.CleanSpecTemplate | Kleanup.go:195-208 | the template block: only the template's metadata and spec change, as the two rows above state |
| Kleanup.TemplateSpecPassedOneLevelTooHigh | Kleanup.go:202-203 | every entry of template.spec other than a nested "spec", the containers among them, comes out of the template block unchanged |
| Kleanup.CleanSpecPaths | Kleanup.go:165-192 | the path deletions equal `RemoveAll` with exact matching; a top-level key goes exactly when listed; every path is honoured |
| Kleanup.SpecPathsTopKeys | Kleanup.go:165-192 | the path deletions remove a top-level key exactly when it is one of the 26 plain names |
| Kleanup.TemplateSpecFieldsGone | Kleanup.go:169-175 | wherever template.spec is a map after the path deletions, none of the seven template.spec fields is in it |
| Kleanup.SpecPathsKeepOthers | Kleanup.go:165-192 | a top-level key that is neither one of the 26 plain names nor "template" keeps its value through the path deletions |
| Kleanup.SpecPathsFrame | Kleanup.go:165-208 | after the path deletions and the template block, every top-level key other than "template" that is left has its original value |
| Kleanup.CleanSpec | Kleanup.go:163-209 | a top-level key is gone exactly when cleanSpec lists it; every other top-level entry except "template" keeps its value; the seven template.spec fields are absent wherever template.spec is a map |
| Kleanup.CleanConfigMapData | Kleanup.go:308-319 | an entry is deleted exactly when its value is a string containing "kubectl.kubernetes.io" or "kubernetes.io/"; non-strings and other strings are kept unchanged |
| Kleanup.RemoveRuntimeFields | Kleanup.go:390-405 | the result is `RemoveAll` of the fifteen runtime paths with the fallback rule |
| Kleanup.RuntimeStatusFallback | Kleanup.go:46-59 | "status" goes first, so status.conditions, status.observedGeneration and status.loadBalancer delete top-level conditions, observedGeneration and loadBalancer |
| Kleanup.RuntimeTemplateFallback | Kleanup.go:47 | on an object with no map under "template", template.generation deletes the top-level generation |
| Kleanup.RuntimeMetadataFallback | Kleanup.go:48-56 | on a map with no map under "metadata", as most maps the recursion visits, the nine metadata.* rows delete generation, resourceVersion, selfLink, uid, creationTimestamp, deletionTimestamp, deletionGracePeriodSeconds, managedFields and labels at its top level |
| Kleanup.RuntimeMetadataFields | Kleanup.go:48-56 | wherever metadata is a map afterwards, it lacks all nine metadata.* leaves: generation, resourceVersion, selfLink, uid, creationTimestamp, deletionTimestamp, deletionGracePeriodSeconds, managedFields and labels |
| Kleanup.LastAppliedAnnotationKept | Kleanup.go:57 | the last-applied-configuration annotation survives `removeRuntimeFields` on its own: the split entry deletes "io/last-applied-configuration" from the deepest map the walk reaches, never the dotted key (inside `cleanupMap`, `cleanAnnotations` has already removed it) |
| Kleanup.RuntimeLeavesSpecAndData | Kleanup.go:45-61 | no runtime path starts with or ends in "spec" or "data", so those entries are untouched |
| Kleanup.ObjectCleanedWithin | Kleanup.go:365-386 | removing more entries, as the runtime table, the recursion and the sweep do, keeps the section guarantees |
| Kleanup.CleanMetadataSection | Kleanup.go:330-332 | a metadata map is replaced by a map meeting the whole contract of `CleanMetadata`; spec, data and kind read as before; other keys keep their values |
| Kleanup.CleanSpecSection | Kleanup.go:335-339 | a spec map is replaced by a map meeting the whole contract of `CleanSpec`; metadata, data and kind read as before; other keys keep their values |
| Kleanup.CleanMetadataAndSpec | Kleanup.go:324-339 | metadata is replaced as `CleanMetadata` states; unless kind is "Secret", spec is replaced as `CleanSpec` states; a Secret's spec, the data map and the kind read as before |
| Kleanup.CleanWorkloadSection | Kleanup.go:344-351 | a spec map is replaced by a map meeting the whole contract of `CleanDeploymentSpec`; metadata, data and kind read as before |
| Kleanup.CleanServiceSection | Kleanup.go:352-356 | a spec map becomes exactly that map without clusterIP and clusterIPs; metadata, data and kind read as before |
| Kleanup.CleanConfigMapSection | Kleanup.go:357-360 | a data map keeps exactly its entries without a runtime marker, with their values; metadata, spec and kind read as before |
| Kleanup.CleanKindSection | Kleanup.go:342-362 | the spec map becomes what `CleanDeploymentSpec` makes of it for Deployment, StatefulSet and DaemonSet, loses exactly clusterIP and clusterIPs for a Service, and is unchanged for any other kind; ConfigMap data is filtered as `CleanConfigMapData` states; metadata is untouched |
| Kleanup.SpecThroughKind | Kleanup.go:334-362 | a spec cleaned by `cleanSpec` (or left alone for a Secret) and then by the switch on kind is related to the original spec through an intermediate map meeting `CleanSpec`'s contract |
| Kleanup.CleanSections | Kleanup.go:323-362 | metadata is replaced as `CleanMetadata` states; a Secret's spec is untouched, any other spec is what `CleanSpec` and then the kind's cleanup make of it; ConfigMap data is filtered and any other object's data reads as before; every other entry keeps its value |
| Kleanup.CleanupMap | Kleanup.go:322-387 | the result is within the input; no visited map holds "status" or an empty-map value; the section guarantees hold; top-level scalars and a Secret's spec scalars survive unless a runtime path ends in their key |
| Kleanup.CleanRuntimeAndChildren | Kleanup.go:365-386 | runtime fields, recursion and sweep leave a swept map within the input, keeping scalars and spec scalars |
| Kleanup.CleanChildren | Kleanup.go:368-379 | every value of the map is visited: maps are cleaned by `cleanupMap`, lists element-wise, scalars untouched; the keys are unchanged |
| Kleanup.CleanChild | Kleanup.go:369-378 | the type switch: a map is swept, the map elements of a list are swept, anything else is kept |
| Kleanup.CleanItems | Kleanup.go:373-377 | every map element of a list is cleaned by `cleanupMap`; lists and scalars inside it are left alone |
| Kleanup.CleanKubernetesObject | Kleanup.go:408-417 | namespace leaves a metadata map, replicas leaves a spec map, and nothing else changes |
| Kleanup.CleanDocument | Kleanup.go:459-477 | a document without kind and apiVersion is skipped; otherwise the result has no status, namespace or replicas, and the section guarantees for its kind hold |
| Klean.RuntimeFieldPaths | Klean.go:40-51 | `runtimeFieldsToRemove` as segments: ten non-empty, dot-free paths |
| Klean.RuntimeFieldsToRemove | Klean.go:40-51 | the ten dotted strings, which `Split` turns back into the segment table |
| Klean.CleanMetadata | Klean.go:118-135 | none of the nine fields is left, annotations are filtered and dropped once empty, and every other entry is unchanged |
| Klean.LabelsAndNamespaceKept | Klean.go:27-37 | labels and namespace come out of `cleanMetadata` as they went in |
| Klean.MetadataKeyNeverDeleted | Klean.go:132-134 | the final delete of a key named "metadata" never removes an entry |
| Klean.CleanSpecTemplate | Klean.go:144-148 | template.metadata is cleaned in place and kept even when emptied; nothing else in the spec changes |
| Klean.CleanSpec | Klean.go:138-149 | a top-level key is gone exactly when it is in specFieldsToRemove, other entries except the template are unchanged, and template.metadata is cleaned |
| Klean.TemplateSpecUntouched | Klean.go:138-149 | template.spec comes out of `cleanSpec` exactly as it went in |
| Klean.CleanContainerSpec | Klean.go:196-209 | exactly the seven fields go; ports and resources are kept unchanged |
| Klean.CleanContainers | Klean.go:185-191 | every map element of containers loses exactly the seven fields; other elements are unchanged |
| Klean.CleanPodTemplateSpec | Klean.go:166-193 | acts only when template.spec is a map: the ten pod fields go, each map container is cleaned, non-map elements are untouched |
| Klean.CleanDeploymentSpec | Klean.go:152-163 | the five fields are gone, a template map is cleaned and kept, and every other entry is unchanged |
| Klean.SelectorKept | Klean.go:152-163 | selector survives `cleanDeploymentSpec` |
| Klean.RemoveRuntimeFields | Klean.go:276-289 | the result is `RemoveAll` of the ten runtime paths with the fallback rule |
| Klean.RuntimeStatusRemoved | Klean.go:41 | top-level status is always removed |
| Klean.RuntimeTemplateFallback | Klean.go:42 | on an object with no map under "template", template.generation deletes the top-level generation |
| Klean.RuntimeMetadataFallback | Klean.go:43-50 | on a map with no map under "metadata", as most maps the recursion visits, the eight metadata.* rows delete generation, resourceVersion, selfLink, uid, creationTimestamp, deletionTimestamp, deletionGracePeriodSeconds and managedFields at its top level |
| Klean.RuntimeMetadataFields | Klean.go:43-50 | wherever metadata is a map afterwards, the eight metadata.* fields are absent |
| Klean.RuntimeLeavesSpec | Klean.go:40-51 | no runtime path starts with or ends in "spec", so the spec is untouched |
| Klean.ObjectCleanedWithin | Klean.go:250-272 | removing more entries keeps the section guarantees |
| Klean.CleanMetadataSection | Klean.go:220-222 | a metadata map is replaced by a map meeting the whole contract of `CleanMetadata`; spec and kind read as before; other keys keep their values |
| Klean.CleanSpecSection | Klean.go:225-229 | a spec map is replaced by a map meeting the whole contract of `CleanSpec`; metadata and kind read as before; other keys keep their values |
| Klean.CleanMetadataAndSpec | Klean.go:214-229 | metadata is replaced as `CleanMetadata` states; unless kind is "Secret", spec is replaced as `CleanSpec` states; a Secret's spec reads as before |
| Klean.CleanWorkloadSection | Klean.go:234-241 | a spec map is replaced by a map meeting the whole contract of `CleanDeploymentSpec`; metadata and kind read as before |
| Klean.CleanServiceSection | Klean.go:242-246 | a spec map becomes exactly that map without clusterIP and clusterIPs; metadata and kind read as before |
| Klean.CleanKindSection | Klean.go:232-248 | the spec map becomes what `CleanDeploymentSpec` makes of it for Deployment, StatefulSet and DaemonSet, loses exactly clusterIP and clusterIPs for a Service, and is unchanged for any other kind; metadata is untouched |
| Klean.SpecThroughKind | Klean.go:224-248 | a spec cleaned by `cleanSpec` (or left alone for a Secret) and then by the switch on kind is related to the original spec through an intermediate map meeting `CleanSpec`'s contract |
| Klean.CleanedThroughKind | Klean.go:231-248 | the switch on kind keeps the metadata and spec guarantees of the earlier steps and adds its own |
| Klean.CleanSections | Klean.go:213-248 | metadata is replaced as `CleanMetadata` states; a Secret's spec is untouched, any other spec is what `CleanSpec` and then the kind's cleanup make of it; every guarantee for the kind holds; every other entry keeps its value |
| Klean.CleanupMap | Klean.go:212-273 | the result is within the input; no visited map holds "status" or an empty-map value; the section guarantees hold; scalars survive unless a runtime path ends in their key |
| Klean.CleanRuntimeAndChildren | Klean.go:250-272 | runtime fields, recursion and sweep leave a swept map within the input |
| Klean.CleanChildren | Klean.go:254-265 | every value of the map is visited and cleaned by its type; keys are unchanged |
| Klean.CleanChild | Klean.go:255-264 | the type switch: a map is swept, the map elements of a list are swept, anything else is kept |
| Klean.CleanItems | Klean.go:259-263 | every map element of a list is cleaned by `cleanupMap` |
| Klean.CleanKubernetesObject | Klean.go:292-305 | an existing metadata.namespace becomes "default", an absent one stays absent, spec.replicas is removed, and nothing else changes |
| Klean.ObjectEditedKeepsCleaned | Klean.go:292-305 | those edits keep the section guarantees and add no status |
| Klean.CleanDocument | Klean.go:347-365 | a document without kind and apiVersion is skipped; otherwise there is no status or replicas, any namespace is "default", and the section guarantees hold |

## Left out

- Reading and writing the YAML stream are not modelled: `cleanupManifest`, `main`, the error values and stderr. Only the skip test of
  `cleanupManifest` and the two cleaning calls for one document are modelled (`CleanDocument`).
- The `KubernetesObject` struct round trip that `cleanupManifest` makes before cleaning is not modelled. It keeps only apiVersion, kind,
  metadata, spec, status, data and type, and drops empty optional ones. `CleanDocument` takes the map after that projection.
- The schema lookup in `cleanKubernetesObject` (`scheme.Scheme.New`) is a foreign registry call. It only prints a warning and never
  changes the object.
- YAML decoding produces maps with string keys here. The `map[interface{}]interface{}` that yaml.v2 can produce for nested mappings is
  not modelled.
- Scalars are strings, integers, booleans and null; floats and timestamps are not distinguished. The cleaners only test whether a value
  is a string, a map or a list.
- Aliasing is not modelled. A Go map is a reference, and the cleaners mutate maps reached through their parents. The model returns new
  contents and stores them back into the parent. The two agree because a decoded document is a tree with no shared sub-maps.
- Go map iteration order is not modelled. Every loop that ranges over a map is proved for any visiting order.
- Kleanup_test.go is not part of this model. It exercises an API that does not exist in these sources.
- Kleanup.CleanSpec: its contract does not restate what the template block does inside "template", beyond the seven template.spec
  fields. That is the contract of `Kleanup.CleanSpecTemplate`, applied to the result of `Kleanup.CleanSpecPaths`, which is what
  `CleanSpec`'s body does.
- Kleanup.CleanupMap: its contract states the guarantees (within the input, swept, section guarantees, scalars kept), not the whole
  output tree as a function of the input.
- Klean.CleanupMap: same as Kleanup.CleanupMap.
- Kleanup.CleanKubernetesObject: can leave an empty metadata or spec map behind, because it runs after the empty-map sweep. Its
  contract states this as written and does not claim the result is swept.
