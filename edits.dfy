/** Map edits that both versions of the cleaner (Kleanup.go and Klean.go) make
    in exactly the same way: deleting a fixed list of keys, the prefix filter
    of cleanAnnotations, and the sweep of empty maps that ends cleanupMap. */
module Edits {
  import opened Tree
  import opened Text

  /** `out` is `d` without the keys in `gone`; every other entry is unchanged. */
  ghost predicate KeysDeleted(out: Dict, d: Dict, gone: seq<string>) {
    && (forall k :: k in out <==> k in d && k !in gone)
    && (forall k :: k in out ==> out[k] == d[k])
  }

  /** A run of `delete(d, field)` over a list of field names. */
  method DeleteKeys(d: Dict, fields: seq<string>) returns (r: Dict)
    ensures KeysDeleted(r, d, fields)
    ensures Within(VMap(r), VMap(d))
  {
    r := d;
    var i := 0;
    while i < |fields|
      invariant 0 <= i <= |fields|
      invariant forall k :: k in r <==> k in d && k !in fields[..i]
      invariant forall k :: k in r ==> r[k] == d[k]
    {
      assert fields[..i + 1] == fields[..i] + [fields[i]];
      r := r - {fields[i]};
      i := i + 1;
    }
    assert fields[..i] == fields;
    WithinRemove(d, r);
  }

  predicate HasAnyPrefix(key: string, prefixes: seq<string>) {
    exists i :: 0 <= i < |prefixes| && HasPrefix(key, prefixes[i])
  }

  /** The inner loop of cleanAnnotations: try the prefixes in order and stop at
      the first that matches. */
  method MatchesAnyPrefix(key: string, prefixes: seq<string>) returns (found: bool)
    ensures found <==> HasAnyPrefix(key, prefixes)
  {
    found := false;
    var i := 0;
    while i < |prefixes|
      invariant 0 <= i <= |prefixes|
      invariant forall j :: 0 <= j < i ==> !HasPrefix(key, prefixes[j])
    {
      if HasPrefix(key, prefixes[i]) {
        found := true;
        break;
      }
      i := i + 1;
    }
  }

  /** `out` keeps exactly the entries of `d` whose key starts with none of
      `prefixes`, with their values. */
  ghost predicate PrefixFiltered(out: Dict, d: Dict, prefixes: seq<string>) {
    && (forall k :: k in out <==> k in d && !HasAnyPrefix(k, prefixes))
    && (forall k :: k in out ==> out[k] == d[k])
  }

  /** One pass over the keys of `d`, deleting every key that has one of the
      prefixes. */
  method RemovePrefixed(d: Dict, prefixes: seq<string>) returns (r: Dict)
    ensures PrefixFiltered(r, d, prefixes)
  {
    r := d;
    var todo := d.Keys;
    while todo != {}
      invariant todo <= d.Keys
      invariant forall k :: k in r <==> k in d && (k in todo || !HasAnyPrefix(k, prefixes))
      invariant forall k :: k in r ==> r[k] == d[k]
      decreases todo
    {
      var key :| key in todo;
      var shouldDelete := MatchesAnyPrefix(key, prefixes);
      if shouldDelete {
        r := r - {key};
      }
      todo := todo - {key};
    }
  }

  /** annotationPrefixesToRemove; the two versions carry the same ten entries. */
  const AnnotationPrefixesToRemove: seq<string> := [
    "kubectl.kubernetes.io/",
    "deployment.kubernetes.io/",
    "kubernetes.io/",
    "k8s.io/",
    "control-plane.alpha.kubernetes.io/",
    "app.kubernetes.io/",
    "autoscaling.alpha.kubernetes.io/",
    "batch.kubernetes.io/",
    "helm.sh/",
    "meta.helm.sh/"
  ]

  /** cleanAnnotations: drop every annotation whose key has one of the ten
      prefixes; keep every other annotation as it is. */
  method CleanAnnotations(annotations: Dict) returns (r: Dict)
    ensures forall k :: k in r <==> k in annotations && !HasAnyPrefix(k, AnnotationPrefixesToRemove)
    ensures forall k :: k in r ==> r[k] == annotations[k]
  {
    r := RemovePrefixed(annotations, AnnotationPrefixesToRemove);
  }

  /** Filtering twice by the same prefixes removes nothing the second time. */
  lemma {:induction false} PrefixFilterIdempotent(once: Dict, twice: Dict, d: Dict, prefixes: seq<string>)
    requires PrefixFiltered(once, d, prefixes)
    requires PrefixFiltered(twice, once, prefixes)
    ensures twice == once
  {
    assert twice.Keys == once.Keys;
  }

  /** What the annotations block of cleanMetadata (and the labels block of
      Kleanup.go) does to the entry `key` of a metadata map: a map is
      filtered by `prefixes` and the entry is deleted when nothing is left;
      any other value is kept. */
  ghost predicate EntryFiltered(out: Dict, md: Dict, key: string, prefixes: seq<string>) {
    match GetMap(md, key)
    case Some(a) =>
      if exists k :: k in a && !HasAnyPrefix(k, prefixes) then
        && key in out && out[key].VMap?
        && PrefixFiltered(out[key].entries, a, prefixes)
      else
        key !in out
    case None =>
      && (key in out <==> key in md)
      && (key in md ==> out[key] == md[key])
  }

  /** The annotations block of cleanMetadata, the same in both versions:
      clean a map of annotations and delete it once it is empty. */
  method CleanAnnotationsEntry(md: Dict) returns (r: Dict)
    ensures EntryFiltered(r, md, "annotations", AnnotationPrefixesToRemove)
    ensures forall k :: k != "annotations" ==> (k in r <==> k in md) && (k in r ==> r[k] == md[k])
    ensures Within(VMap(r), VMap(md))
  {
    r := md;
    match GetMap(md, "annotations") {
      case Some(a) =>
        var cleaned := CleanAnnotations(a);
        r := ReplaceOrDrop(md, "annotations", a, cleaned, AnnotationPrefixesToRemove);
      case None =>
    }
  }

  /** Write a filtered map back under `key`, or delete the entry when the
      filter left nothing (`if len(x) == 0 { delete(md, key) }`). */
  method ReplaceOrDrop(md: Dict, key: string, a: Dict, cleaned: Dict, prefixes: seq<string>) returns (r: Dict)
    requires GetMap(md, key) == Some(a)
    requires PrefixFiltered(cleaned, a, prefixes)
    ensures EntryFiltered(r, md, key, prefixes)
    ensures forall k :: k != key ==> (k in r <==> k in md) && (k in r ==> r[k] == md[k])
    ensures Within(VMap(r), VMap(md))
  {
    if |cleaned| == 0 {
      r := md - {key};
      forall k | k in a ensures HasAnyPrefix(k, prefixes) {
        assert k !in cleaned;
      }
      WithinRemove(md, r);
    } else {
      var k0 :| k0 in cleaned;
      assert k0 in a && !HasAnyPrefix(k0, prefixes);
      r := md[key := VMap(cleaned)];
      WithinRemove(a, cleaned);
      WithinUpdate(md, key, VMap(cleaned));
    }
  }

  /** The last loop of cleanupMap: delete every entry whose value is an empty map. */
  method DropEmptyMaps(d: Dict) returns (r: Dict)
    ensures forall k :: k in r <==> k in d && !IsEmptyMap(d[k])
    ensures forall k :: k in r ==> r[k] == d[k]
    ensures Within(VMap(r), VMap(d))
  {
    r := d;
    var todo := d.Keys;
    while todo != {}
      invariant todo <= d.Keys
      invariant forall k :: k in r <==> k in d && (k in todo || !IsEmptyMap(d[k]))
      invariant forall k :: k in r ==> r[k] == d[k]
      decreases todo
    {
      var key :| key in todo;
      match d[key] {
        case VMap(e) =>
          if |e| == 0 {
            r := r - {key};
          }
        case _ =>
      }
      todo := todo - {key};
    }
    WithinRemove(d, r);
  }
}
