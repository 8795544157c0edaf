/** The decoded manifest: a tree of string-keyed maps, lists and scalars
    (Go's map[string]interface{} and []interface{}), with the relations the
    cleaners' contracts are stated in. */
module Tree {

  datatype Value =
    | VMap(entries: map<string, Value>)
    | VList(items: seq<Value>)
    | VStr(str: string)
    | VInt(num: int)
    | VBool(flag: bool)
    | VNull

  type Dict = map<string, Value>

  datatype Option<T> = None | Some(value: T)

  /** Go's `v, ok := d[key].(map[string]interface{})`. */
  function GetMap(d: Dict, key: string): Option<Dict> {
    if key in d && d[key].VMap? then Some(d[key].entries) else None
  }

  /** Go's `v, ok := d[key].([]interface{})`. */
  function GetList(d: Dict, key: string): Option<seq<Value>> {
    if key in d && d[key].VList? then Some(d[key].items) else None
  }

  /** Go's `v, ok := d[key].(string)`. */
  function GetStr(d: Dict, key: string): Option<string> {
    if key in d && d[key].VStr? then Some(d[key].str) else None
  }

  predicate IsEmptyMap(v: Value) {
    v.VMap? && v.entries == map[]
  }

  predicate IsScalar(v: Value) {
    !v.VMap? && !v.VList?
  }

  /** `a` is `b` with map entries removed at any depth: the only kind of
      change the cleaners inside cleanupMap make. Lists keep their length. */
  ghost predicate Within(a: Value, b: Value)
    decreases b
  {
    || a == b
    || (&& a.VMap? && b.VMap? && a.entries.Keys <= b.entries.Keys
        && forall k :: k in a.entries ==> Within(a.entries[k], b.entries[k]))
    || (&& a.VList? && b.VList? && |a.items| == |b.items|
        && forall i :: 0 <= i < |a.items| ==> Within(a.items[i], b.items[i]))
  }

  lemma {:induction false} WithinTransitive(a: Value, b: Value, c: Value)
    requires Within(a, b) && Within(b, c)
    ensures Within(a, c)
    decreases c
  {
    if a == b || b == c {
    } else if b.VMap? {
      assert a.VMap? && c.VMap?;
      forall k | k in a.entries
        ensures Within(a.entries[k], c.entries[k])
      {
        WithinTransitive(a.entries[k], b.entries[k], c.entries[k]);
      }
    } else {
      assert a.VList? && c.VList?;
      forall i | 0 <= i < |a.items|
        ensures Within(a.items[i], c.items[i])
      {
        WithinTransitive(a.items[i], b.items[i], c.items[i]);
      }
    }
  }

  /** Replacing one entry by something within it keeps the map within the original. */
  lemma WithinUpdate(d: Dict, k: string, v: Value)
    requires k in d && Within(v, d[k])
    ensures Within(VMap(d[k := v]), VMap(d))
  {
    var r := d[k := v];
    forall j | j in r ensures Within(r[j], d[j]) {
      if j != k { assert r[j] == d[j]; }
    }
  }

  /** Replacing one entry leaves every other entry as it reads. */
  lemma GetAfterUpdate(d: Dict, k: string, v: Value, j: string)
    requires j != k
    ensures GetMap(d[k := v], j) == GetMap(d, j) && GetStr(d[k := v], j) == GetStr(d, j)
  {
  }

  /** Dropping keys keeps a map within the original. */
  lemma WithinRemove(d: Dict, r: Dict)
    requires r.Keys <= d.Keys && forall k :: k in r ==> r[k] == d[k]
    ensures Within(VMap(r), VMap(d))
  {
    forall k | k in r ensures Within(r[k], d[k]) {
      assert r[k] == d[k];
    }
  }

  /** Like Within, and every key removed, at any depth, is in `gone`. */
  ghost predicate RemovedOnly(a: Value, b: Value, gone: set<string>)
    decreases b
  {
    || a == b
    || (&& a.VMap? && b.VMap? && a.entries.Keys <= b.entries.Keys
        && (forall k :: k in b.entries && k !in a.entries ==> k in gone)
        && forall k :: k in a.entries ==> RemovedOnly(a.entries[k], b.entries[k], gone))
    || (&& a.VList? && b.VList? && |a.items| == |b.items|
        && forall i :: 0 <= i < |a.items| ==> RemovedOnly(a.items[i], b.items[i], gone))
  }

  lemma {:induction false} RemovedOnlyWithin(a: Value, b: Value, gone: set<string>)
    requires RemovedOnly(a, b, gone)
    ensures Within(a, b)
    decreases b
  {
    if a != b {
      if a.VMap? {
        forall k | k in a.entries ensures Within(a.entries[k], b.entries[k]) {
          RemovedOnlyWithin(a.entries[k], b.entries[k], gone);
        }
      } else {
        forall i | 0 <= i < |a.items| ensures Within(a.items[i], b.items[i]) {
          RemovedOnlyWithin(a.items[i], b.items[i], gone);
        }
      }
    }
  }

  lemma {:induction false} RemovedOnlyTransitive(a: Value, b: Value, c: Value, g1: set<string>, g2: set<string>)
    requires RemovedOnly(a, b, g1) && RemovedOnly(b, c, g2)
    ensures RemovedOnly(a, c, g1 + g2)
    decreases c
  {
    if a == b {
      RemovedOnlyWiden(b, c, g2, g1 + g2);
    } else if b == c {
      RemovedOnlyWiden(a, b, g1, g1 + g2);
    } else if b.VMap? {
      forall k | k in a.entries ensures RemovedOnly(a.entries[k], c.entries[k], g1 + g2) {
        RemovedOnlyTransitive(a.entries[k], b.entries[k], c.entries[k], g1, g2);
      }
    } else {
      forall i | 0 <= i < |a.items| ensures RemovedOnly(a.items[i], c.items[i], g1 + g2) {
        RemovedOnlyTransitive(a.items[i], b.items[i], c.items[i], g1, g2);
      }
    }
  }

  lemma {:induction false} RemovedOnlyWiden(a: Value, b: Value, g: set<string>, h: set<string>)
    requires RemovedOnly(a, b, g) && g <= h
    ensures RemovedOnly(a, b, h)
    decreases b
  {
    if a != b {
      if a.VMap? {
        forall k | k in a.entries ensures RemovedOnly(a.entries[k], b.entries[k], h) {
          RemovedOnlyWiden(a.entries[k], b.entries[k], g, h);
        }
      } else {
        forall i | 0 <= i < |a.items| ensures RemovedOnly(a.items[i], b.items[i], h) {
          RemovedOnlyWiden(a.items[i], b.items[i], g, h);
        }
      }
    }
  }

  ghost function MaxOf(s: set<nat>): (m: nat)
    ensures forall x :: x in s ==> x <= m
    ensures s != {} ==> m in s
    decreases s
  {
    if s == {} then 0
    else
      var x :| x in s;
      var rest := MaxOf(s - {x});
      assert forall y :: y in s ==> y == x || y in s - {x};
      if x < rest then rest else x
  }

  /** Nesting depth of maps and lists; bounds the recursion of cleanupMap. */
  ghost function Height(v: Value): (h: nat)
    ensures v.VMap? ==> forall k :: k in v.entries ==> Height(v.entries[k]) < h
    ensures v.VList? ==> forall i :: 0 <= i < |v.items| ==> Height(v.items[i]) < h
    decreases v
  {
    match v
    case VMap(e) =>
      var hs := set k | k in e :: Height(e[k]);
      assert forall k :: k in e ==> Height(e[k]) in hs;
      1 + MaxOf(hs)
    case VList(s) =>
      var hs := set i | 0 <= i < |s| :: Height(s[i]);
      assert forall i :: 0 <= i < |s| ==> Height(s[i]) in hs;
      1 + MaxOf(hs)
    case _ => 0
  }

  /** Removing entries never makes a tree deeper. */
  lemma {:induction false} WithinHeight(a: Value, b: Value)
    requires Within(a, b)
    ensures Height(a) <= Height(b)
    decreases b
  {
    if a == b {
    } else if a.VMap? {
      var A := set k | k in a.entries :: Height(a.entries[k]);
      var B := set k | k in b.entries :: Height(b.entries[k]);
      if A != {} {
        var k :| k in a.entries && Height(a.entries[k]) == MaxOf(A);
        WithinHeight(a.entries[k], b.entries[k]);
        assert Height(b.entries[k]) in B;
      }
    } else {
      var A := set i | 0 <= i < |a.items| :: Height(a.items[i]);
      var B := set i | 0 <= i < |b.items| :: Height(b.items[i]);
      if A != {} {
        var i :| 0 <= i < |a.items| && Height(a.items[i]) == MaxOf(A);
        WithinHeight(a.items[i], b.items[i]);
        assert Height(b.items[i]) in B;
      }
    }
  }

  /** Every map the recursive sweep of cleanupMap visits in `v` (maps reached
      through map values and through the map elements of lists) has no
      "status" key and no value that is an empty map. Elements of lists that
      are themselves lists are not visited. */
  ghost predicate Swept(v: Value)
    decreases v
  {
    match v
    case VMap(e) =>
      && "status" !in e
      && forall k :: k in e ==> !IsEmptyMap(e[k]) && Swept(e[k])
    case VList(s) => forall i :: 0 <= i < |s| ==> s[i].VMap? ==> Swept(s[i])
    case _ => true
  }

  /** Every top-level scalar entry of `d` whose key is not in `leaves` is in
      `r` with the same value. */
  ghost predicate ScalarsKept(r: Dict, d: Dict, leaves: set<string>) {
    forall k :: k in d && IsScalar(d[k]) && k !in leaves ==> k in r && r[k] == d[k]
  }

  /** What one run of cleanupMap guarantees of its result `r` against its
      argument `m`, given the last segments of its runtime paths. */
  ghost predicate SweptFrom(r: Dict, m: Dict, leaves: set<string>) {
    Within(VMap(r), VMap(m)) && Swept(VMap(r)) && ScalarsKept(r, m, leaves)
  }

  /** What the recursive step of cleanupMap does to one value of the map:
      a map is swept, the map elements of a list are swept, anything else is
      left alone. */
  ghost predicate ChildSwept(out: Value, v: Value, leaves: set<string>) {
    match v
    case VMap(e) => out.VMap? && SweptFrom(out.entries, e, leaves)
    case VList(s) => out.VList? && ItemsSwept(out.items, s, leaves)
    case _ => out == v
  }

  ghost predicate ItemsSwept(out: seq<Value>, s: seq<Value>, leaves: set<string>) {
    && |out| == |s|
    && forall i :: 0 <= i < |s| ==>
         if s[i].VMap? then out[i].VMap? && SweptFrom(out[i].entries, s[i].entries, leaves)
         else out[i] == s[i]
  }

  lemma ChildSweptWithin(out: Value, v: Value, leaves: set<string>)
    requires ChildSwept(out, v, leaves)
    ensures Within(out, v)
    ensures Swept(out)
  {
    if v.VList? {
      forall i | 0 <= i < |out.items| ensures Within(out.items[i], v.items[i]) {
        if v.items[i].VMap? {
          assert VMap(out.items[i].entries) == out.items[i];
        }
      }
    }
  }

  /** A map entry of a tree within `b` is a map entry of `b` as well, with
      fewer keys; a scalar anywhere in it is the scalar of `b`. */
  lemma WithinGetMap(a: Dict, b: Dict, key: string)
    requires Within(VMap(a), VMap(b))
    requires GetMap(a, key).Some?
    ensures GetMap(b, key).Some?
    ensures Within(VMap(GetMap(a, key).value), VMap(GetMap(b, key).value))
    ensures GetMap(a, key).value.Keys <= GetMap(b, key).value.Keys
    ensures forall k :: k in GetMap(a, key).value && IsScalar(GetMap(a, key).value[k]) ==>
      GetMap(a, key).value[k] == GetMap(b, key).value[k]
  {
    assert Within(a[key], b[key]);
    assert VMap(a[key].entries) == a[key];
  }

  /** `out` and `d` agree on every key outside `keys`. */
  ghost predicate SameExcept(out: Dict, d: Dict, keys: set<string>) {
    && (forall k :: k !in keys ==> (k in out <==> k in d))
    && (forall k :: k !in keys && k in out ==> out[k] == d[k])
  }

  /** Two steps that each leave every key outside their own set alone leave
      every key outside a set covering both alone. */
  lemma SameExceptTransitive(a: Dict, b: Dict, c: Dict, k1: set<string>, k2: set<string>, keys: set<string>)
    requires SameExcept(a, b, k1) && SameExcept(b, c, k2) && k1 <= keys && k2 <= keys
    ensures SameExcept(a, c, keys)
  {
  }

  /** The scalar entries of the spec map of `d` whose key is not in `leaves`
      are in the spec map of `r`. */
  ghost predicate SpecScalarsKept(r: Dict, d: Dict, leaves: set<string>) {
    GetMap(d, "spec").Some? ==>
      var spec := GetMap(d, "spec").value;
      forall k :: k in spec && IsScalar(spec[k]) && k !in leaves ==>
        GetMap(r, "spec").Some? && k in GetMap(r, "spec").value && GetMap(r, "spec").value[k] == spec[k]
  }

  /** After the recursion of cleanupMap (from `t` to `c`) and the sweep of
      empty maps (from `c` to `r`), the map is swept and within `t`. */
  lemma SweepWithin(t: Dict, c: Dict, r: Dict, leaves: set<string>)
    requires "status" !in t
    requires c.Keys == t.Keys
    requires forall k :: k in t ==> ChildSwept(c[k], t[k], leaves)
    requires forall k :: k in r <==> k in c && !IsEmptyMap(c[k])
    requires forall k :: k in r ==> r[k] == c[k]
    ensures Within(VMap(r), VMap(t)) && Swept(VMap(r))
  {
    forall k | k in c ensures Within(c[k], t[k]) && Swept(c[k]) {
      ChildSweptWithin(c[k], t[k], leaves);
    }
    assert Within(VMap(c), VMap(t));
    WithinRemove(c, r);
    WithinTransitive(VMap(r), VMap(c), VMap(t));
  }

  /** A spec map that reaches the recursion of cleanupMap as it was in `d`
      keeps its scalars through the recursion and the sweep. */
  lemma SpecScalarsSurvive(d: Dict, t: Dict, c: Dict, r: Dict, leaves: set<string>)
    requires GetMap(d, "spec").Some? && "spec" in t && t["spec"] == d["spec"]
    requires c.Keys == t.Keys
    requires forall k :: k in t ==> ChildSwept(c[k], t[k], leaves)
    requires forall k :: k in r <==> k in c && !IsEmptyMap(c[k])
    requires forall k :: k in r ==> r[k] == c[k]
    ensures SpecScalarsKept(r, d, leaves)
  {
    assert ChildSwept(c["spec"], t["spec"], leaves);
  }

  /** The section cleaners change only map entries, so the scalars kept from
      their result are the scalars of the object. */
  lemma ScalarsThroughSections(m: Dict, s: Dict, r: Dict, leaves: set<string>)
    requires s.Keys == m.Keys
    requires forall k :: k in m && !m[k].VMap? ==> s[k] == m[k]
    requires ScalarsKept(r, s, leaves)
    ensures ScalarsKept(r, m, leaves)
  {
    forall k | k in m && IsScalar(m[k]) && k !in leaves ensures k in r && r[k] == m[k] {
      assert s[k] == m[k];
    }
  }

  /** Sections that leave the spec alone pass its scalars through. */
  lemma SpecScalarsThroughSections(m: Dict, s: Dict, r: Dict, leaves: set<string>)
    requires SameExcept(s, m, {"metadata"})
    requires SpecScalarsKept(r, s, leaves)
    ensures SpecScalarsKept(r, m, leaves)
  {
    assert GetMap(s, "spec") == GetMap(m, "spec");
  }

  /** The sweep of empty maps looks only at map values: an empty map that is
      an element of a list stays in the list. */
  lemma EmptyMapsInListsKept(out: seq<Value>, items: seq<Value>, i: nat, leaves: set<string>)
    requires ItemsSwept(out, items, leaves)
    requires i < |items| && items[i] == VMap(map[])
    ensures out[i] == VMap(map[])
  {
    assert out[i].VMap? && Within(VMap(out[i].entries), VMap(map[]));
    assert out[i].entries.Keys <= {};
  }

  /** The string under `key`, or "" (a missing string field of the
      document's struct decodes as the empty string). */
  function StrField(doc: Dict, key: string): string {
    match GetStr(doc, key)
    case Some(v) => v
    case None => ""
  }

  /** The skip test of cleanupManifest, the same in both versions: a
      document with neither a kind nor an apiVersion is skipped. */
  predicate IsEmptyDocument(doc: Dict) {
    StrField(doc, "kind") == "" && StrField(doc, "apiVersion") == ""
  }
}
