/** Dotted field paths. Both versions split a path such as
    "metadata.generation" on '.' and walk the segments down through nested
    maps. They differ in what happens when the walk stops early:
    removeRuntimeFields deletes the last segment from whatever map it reached
    (RemoveReached), cleanSpec in Kleanup.go deletes only when the whole
    walk succeeded (RemoveExact). */
module Paths {
  import opened Tree
  import opened Text

  function Last(parts: seq<string>): string
    requires |parts| >= 1
  {
    parts[|parts| - 1]
  }

  function Init(parts: seq<string>): seq<string>
    requires |parts| >= 1
  {
    parts[..|parts| - 1]
  }

  /** Every segment of `path` names a map inside the previous one. */
  predicate Walkable(d: Dict, path: seq<string>)
    decreases |path|
  {
    path == [] || (path[0] in d && d[path[0]].VMap? && Walkable(d[path[0]].entries, path[1..]))
  }

  /** The map at the end of a walkable path. */
  function Descend(d: Dict, path: seq<string>): Dict
    requires Walkable(d, path)
    decreases |path|
  {
    if path == [] then d else Descend(d[path[0]].entries, path[1..])
  }

  /** `d` with the map at the end of `path` replaced by `leaf`: what an in-place
      edit of the nested map does to the whole tree. */
  function Graft(d: Dict, path: seq<string>, leaf: Dict): Dict
    requires Walkable(d, path)
    decreases |path|
  {
    if path == [] then leaf else d[path[0] := VMap(Graft(d[path[0]].entries, path[1..], leaf))]
  }

  /** One path of removeRuntimeFields: follow the leading segments through maps
      as long as they lead to maps, then delete the last segment from the map
      reached, even when that is not the map the path names. */
  function RemoveReached(d: Dict, parts: seq<string>): (r: Dict)
    requires |parts| >= 1
    ensures Within(VMap(r), VMap(d))
    ensures RemovedOnly(VMap(r), VMap(d), {Last(parts)})
    ensures Walkable(d, Init(parts)) ==>
      Walkable(r, Init(parts)) && Descend(r, Init(parts)) == Descend(d, Init(parts)) - {Last(parts)}
    ensures forall k :: k in d && k != Last(parts) && (k != parts[0] || !d[k].VMap?) ==> k in r && r[k] == d[k]
    ensures |parts| == 1 || !(parts[0] in d && d[parts[0]].VMap?) ==> Last(parts) !in r
    decreases |parts|
  {
    if |parts| > 1 && parts[0] in d && d[parts[0]].VMap? then
      var inner := RemoveReached(d[parts[0]].entries, parts[1..]);
      assert Init(parts)[1..] == Init(parts[1..]) && Last(parts[1..]) == Last(parts);
      WithinUpdate(d, parts[0], VMap(inner));
      RemovedOnlyUpdate(d, parts[0], VMap(inner), {Last(parts)});
      d[parts[0] := VMap(inner)]
    else
      WithinRemove(d, d - {Last(parts)});
      RemovedOnlyRemove(d, d - {Last(parts)}, {Last(parts)});
      d - {Last(parts)}
  }

  /** One path of cleanSpec in Kleanup.go: delete the last segment only when
      every earlier segment leads to a map; otherwise change nothing. */
  function RemoveExact(d: Dict, parts: seq<string>): (r: Dict)
    requires |parts| >= 1
    ensures Within(VMap(r), VMap(d))
    ensures RemovedOnly(VMap(r), VMap(d), {Last(parts)})
    ensures Walkable(d, Init(parts)) ==>
      Walkable(r, Init(parts)) && Descend(r, Init(parts)) == Descend(d, Init(parts)) - {Last(parts)}
    ensures !Walkable(d, Init(parts)) ==> r == d
    ensures forall k :: k in d && k != parts[0] ==> k in r && r[k] == d[k]
    ensures |parts| > 1 ==> r.Keys == d.Keys
    decreases |parts|
  {
    if |parts| == 1 then
      WithinRemove(d, d - {parts[0]});
      RemovedOnlyRemove(d, d - {parts[0]}, {Last(parts)});
      d - {parts[0]}
    else if parts[0] in d && d[parts[0]].VMap? then
      var inner := RemoveExact(d[parts[0]].entries, parts[1..]);
      assert Init(parts)[1..] == Init(parts[1..]) && Last(parts[1..]) == Last(parts);
      WithinUpdate(d, parts[0], VMap(inner));
      RemovedOnlyUpdate(d, parts[0], VMap(inner), {Last(parts)});
      d[parts[0] := VMap(inner)]
    else
      d
  }

  /** The walk of removeRuntimeFields over one split path, with `current`
      following the nested maps. */
  method RemoveReachedPath(m: Dict, parts: seq<string>) returns (r: Dict)
    requires |parts| >= 1
    ensures r == RemoveReached(m, parts)
  {
    var current := m;
    var i := 0;
    while i < |parts| - 1 && parts[i] in current && current[parts[i]].VMap?
      invariant 0 <= i <= |parts| - 1
      invariant Walkable(m, parts[..i]) && current == Descend(m, parts[..i])
    {
      WalkStep(m, parts[..i], parts[i]);
      assert parts[..i + 1] == parts[..i] + [parts[i]];
      current := current[parts[i]].entries;
      i := i + 1;
    }
    r := Graft(m, parts[..i], current - {Last(parts)});
    GraftReached(m, parts, i);
  }

  /** The walk of cleanSpec over one split path: delete at the last segment,
      give up as soon as a segment does not lead to a map. */
  method RemoveExactPath(m: Dict, parts: seq<string>) returns (r: Dict)
    requires |parts| >= 1
    ensures r == RemoveExact(m, parts)
  {
    var current := m;
    var i := 0;
    r := m;
    while i < |parts|
      invariant 0 <= i <= |parts| - 1
      invariant Walkable(m, parts[..i]) && current == Descend(m, parts[..i])
      decreases |parts| - i
    {
      if i == |parts| - 1 {
        r := Graft(m, parts[..i], current - {parts[i]});
        GraftExact(m, parts, i);
        break;
      }
      if parts[i] in current && current[parts[i]].VMap? {
        WalkStep(m, parts[..i], parts[i]);
        assert parts[..i + 1] == parts[..i] + [parts[i]];
        current := current[parts[i]].entries;
        i := i + 1;
      } else {
        GraftExact(m, parts, i);
        break;
      }
    }
  }

  /** Extending a walkable path by one segment that names a map. */
  lemma {:induction false} WalkStep(d: Dict, path: seq<string>, key: string)
    requires Walkable(d, path)
    requires key in Descend(d, path) && Descend(d, path)[key].VMap?
    ensures Walkable(d, path + [key])
    ensures Descend(d, path + [key]) == Descend(d, path)[key].entries
    decreases |path|
  {
    if path != [] {
      assert (path + [key])[1..] == path[1..] + [key];
      WalkStep(d[path[0]].entries, path[1..], key);
    }
  }

  /** Where the loop of RemoveReachedPath stops, grafting the edited map back
      gives RemoveReached. */
  lemma {:induction false} GraftReached(d: Dict, parts: seq<string>, i: nat)
    requires |parts| >= 1 && i <= |parts| - 1
    requires Walkable(d, parts[..i])
    requires i < |parts| - 1 ==> !(parts[i] in Descend(d, parts[..i]) && Descend(d, parts[..i])[parts[i]].VMap?)
    ensures Graft(d, parts[..i], Descend(d, parts[..i]) - {Last(parts)}) == RemoveReached(d, parts)
    decreases i
  {
    if i > 0 {
      assert parts[..i][1..] == parts[1..][..i - 1];
      assert Last(parts[1..]) == Last(parts);
      GraftReached(d[parts[0]].entries, parts[1..], i - 1);
    }
  }

  /** Where the loop of RemoveExactPath stops, the result is RemoveExact: the
      edited map grafted back when the walk reached the last segment, the
      input unchanged otherwise. */
  lemma {:induction false} GraftExact(d: Dict, parts: seq<string>, i: nat)
    requires |parts| >= 1 && i <= |parts| - 1
    requires Walkable(d, parts[..i])
    requires i < |parts| - 1 ==> !(parts[i] in Descend(d, parts[..i]) && Descend(d, parts[..i])[parts[i]].VMap?)
    ensures i == |parts| - 1 ==> Graft(d, parts[..i], Descend(d, parts[..i]) - {Last(parts)}) == RemoveExact(d, parts)
    ensures i < |parts| - 1 ==> d == RemoveExact(d, parts)
    decreases i
  {
    if i > 0 {
      assert parts[..i][1..] == parts[1..][..i - 1];
      assert Last(parts[1..]) == Last(parts);
      GraftExact(d[parts[0]].entries, parts[1..], i - 1);
    }
  }

  predicate AllNonEmpty(paths: seq<seq<string>>) {
    forall i :: 0 <= i < |paths| ==> |paths[i]| >= 1
  }

  /** One path, by the rule of removeRuntimeFields or of cleanSpec. */
  function Remove(d: Dict, parts: seq<string>, exact: bool): Dict
    requires |parts| >= 1
  {
    if exact then RemoveExact(d, parts) else RemoveReached(d, parts)
  }

  /** A whole table of paths, applied in order. */
  function RemoveAll(d: Dict, paths: seq<seq<string>>, exact: bool): (r: Dict)
    requires AllNonEmpty(paths)
    ensures Within(VMap(r), VMap(d))
    ensures RemovedOnly(VMap(r), VMap(d), Leaves(paths))
    decreases |paths|
  {
    if paths == [] then d
    else
      var next := Remove(d, paths[0], exact);
      var r := RemoveAll(next, paths[1..], exact);
      WithinTransitive(VMap(r), VMap(next), VMap(d));
      LeavesCons(paths);
      RemovedOnlyTransitive(VMap(r), VMap(next), VMap(d), Leaves(paths[1..]), {Last(paths[0])});
      RemovedOnlyWiden(VMap(r), VMap(d), Leaves(paths[1..]) + {Last(paths[0])}, Leaves(paths));
      r
  }

  lemma LeavesCons(paths: seq<seq<string>>)
    requires AllNonEmpty(paths) && paths != []
    ensures Leaves(paths) == {Last(paths[0])} + Leaves(paths[1..])
  {
    forall x | x in Leaves(paths[1..]) ensures x in Leaves(paths) {
      var i :| 0 <= i < |paths[1..]| && x == Last(paths[1..][i]);
      assert paths[1..][i] == paths[i + 1];
    }
    forall x | x in Leaves(paths) ensures x in {Last(paths[0])} + Leaves(paths[1..]) {
      var i :| 0 <= i < |paths| && x == Last(paths[i]);
      if i > 0 { assert paths[1..][i - 1] == paths[i]; }
    }
  }

  /** Replacing one entry by a value it removed keys from. */
  lemma RemovedOnlyUpdate(d: Dict, k: string, v: Value, gone: set<string>)
    requires k in d && RemovedOnly(v, d[k], gone)
    ensures RemovedOnly(VMap(d[k := v]), VMap(d), gone)
  {
    var r := d[k := v];
    forall j | j in r ensures RemovedOnly(r[j], d[j], gone) {
      if j != k { assert r[j] == d[j]; }
    }
  }

  /** Deleting keys from `gone` only. */
  lemma RemovedOnlyRemove(d: Dict, r: Dict, gone: set<string>)
    requires r.Keys <= d.Keys && forall k :: k in r ==> r[k] == d[k]
    requires forall k :: k in d && k !in r ==> k in gone
    ensures RemovedOnly(VMap(r), VMap(d), gone)
  {
    forall k | k in r ensures RemovedOnly(r[k], d[k], gone) {
      assert r[k] == d[k];
    }
  }

  /** strings.Split(path, ".") of every entry of a table. */
  function SplitAll(table: seq<string>): (paths: seq<seq<string>>)
    ensures |paths| == |table| && AllNonEmpty(paths)
    ensures forall i :: 0 <= i < |table| ==> paths[i] == Split(table[i], '.')
  {
    seq(|table|, i requires 0 <= i < |table| => Split(table[i], '.'))
  }

  /** The leaf segments of a table: the only keys a table can delete. */
  ghost function Leaves(paths: seq<seq<string>>): set<string>
    requires AllNonEmpty(paths)
  {
    set i | 0 <= i < |paths| :: Last(paths[i])
  }

  /** A walk that succeeds in a tree within `b` succeeds in `b`, and ends in a
      map within the one it ends in there. */
  lemma {:induction false} WithinWalk(a: Dict, b: Dict, path: seq<string>)
    requires Within(VMap(a), VMap(b))
    requires Walkable(a, path)
    ensures Walkable(b, path)
    ensures Within(VMap(Descend(a, path)), VMap(Descend(b, path)))
    ensures Descend(a, path).Keys <= Descend(b, path).Keys
    decreases |path|
  {
    if path != [] {
      assert Within(a[path[0]], b[path[0]]);
      WithinWalk(a[path[0]].entries, b[path[0]].entries, path[1..]);
    }
  }

  /** Every path of a table is honoured wherever its leading segments still
      lead to maps after the whole table has run: its last segment is gone
      from the map they lead to. */
  lemma {:induction false} RemoveAllStrict(d: Dict, paths: seq<seq<string>>, exact: bool, j: nat)
    requires AllNonEmpty(paths) && j < |paths|
    ensures var r := RemoveAll(d, paths, exact);
      Walkable(r, Init(paths[j])) ==> Last(paths[j]) !in Descend(r, Init(paths[j]))
    decreases |paths|
  {
    var next := Remove(d, paths[0], exact);
    var r := RemoveAll(d, paths, exact);
    assert r == RemoveAll(next, paths[1..], exact);
    if j == 0 {
      var pre := Init(paths[0]);
      if Walkable(r, pre) {
        WithinWalk(r, next, pre);
        WithinWalk(next, d, pre);
      }
    } else {
      RemoveAllStrict(next, paths[1..], exact, j - 1);
    }
  }

  /** A key that is neither the first nor the last segment of any path of the
      table keeps its entry. */
  lemma {:induction false} RemoveAllKeepsOthers(d: Dict, paths: seq<seq<string>>, exact: bool, k: string)
    requires AllNonEmpty(paths)
    requires forall i :: 0 <= i < |paths| ==> k != paths[i][0] && k != Last(paths[i])
    requires k in d
    ensures var r := RemoveAll(d, paths, exact); k in r && r[k] == d[k]
    decreases |paths|
  {
    if paths != [] {
      var next := Remove(d, paths[0], exact);
      RemoveAllKeepsOthers(next, paths[1..], exact, k);
    }
  }

  /** A scalar entry survives a table unless its key is the last segment of
      some path. */
  lemma {:induction false} RemoveAllKeepsScalars(d: Dict, paths: seq<seq<string>>, exact: bool, k: string)
    requires AllNonEmpty(paths)
    requires k in d && IsScalar(d[k]) && k !in Leaves(paths)
    ensures var r := RemoveAll(d, paths, exact); k in r && r[k] == d[k]
    decreases |paths|
  {
    if paths != [] {
      var next := Remove(d, paths[0], exact);
      LeavesCons(paths);
      RemoveAllKeepsScalars(next, paths[1..], exact, k);
    }
  }

  /** A key missing before a table runs is missing after it. */
  lemma RemoveAllAbsent(d: Dict, paths: seq<seq<string>>, exact: bool, k: string)
    requires AllNonEmpty(paths) && k !in d
    ensures k !in RemoveAll(d, paths, exact)
  {
  }

  /** The fallback of removeRuntimeFields: a two-segment path whose first
      segment does not name a map deletes its second segment at the top
      level. Maps are never created, so this holds whenever the first segment
      does not name a map before the table runs. */
  lemma {:induction false} RemoveAllFallback(d: Dict, paths: seq<seq<string>>, j: nat)
    requires AllNonEmpty(paths) && j < |paths| && |paths[j]| == 2
    requires !(paths[j][0] in d && d[paths[j][0]].VMap?)
    ensures paths[j][1] !in RemoveAll(d, paths, false)
    decreases |paths|
  {
    var next := Remove(d, paths[0], false);
    assert RemoveAll(d, paths, false) == RemoveAll(next, paths[1..], false);
    if j == 0 {
      RemoveAllAbsent(next, paths[1..], false, paths[0][1]);
    } else {
      var h := paths[j][0];
      if h in next {
        assert Within(next[h], d[h]);
      }
      RemoveAllFallback(next, paths[1..], j - 1);
    }
  }

  /** Splitting inside the loop and folding over the split table agree. */
  lemma {:induction false} RemoveAllStep(d: Dict, paths: seq<seq<string>>, exact: bool, j: nat)
    requires AllNonEmpty(paths) && j < |paths|
    ensures RemoveAll(Remove(d, paths[j], exact), paths[j + 1..], exact) == RemoveAll(d, paths[j..], exact)
  {
    assert paths[j..][0] == paths[j] && paths[j..][1..] == paths[j + 1..];
  }

  /** The inverse of SplitAll: each path glued back together with '.'. */
  function JoinAll(paths: seq<seq<string>>): (table: seq<string>)
    requires AllNonEmpty(paths)
    ensures |table| == |paths|
  {
    seq(|paths|, i requires 0 <= i < |paths| => Join(paths[i], '.'))
  }

  /** No segment of one path contains the separator. */
  predicate NoDotsIn(path: seq<string>) {
    forall j :: 0 <= j < |path| ==> '.' !in path[j]
  }

  /** No segment of any path contains the separator. */
  predicate NoDots(paths: seq<seq<string>>) {
    forall i :: 0 <= i < |paths| ==> NoDotsIn(paths[i])
  }

  /** Splitting a table of joined dot-free segments gives the segments back. */
  lemma {:induction false} SplitAllJoinAll(paths: seq<seq<string>>)
    requires AllNonEmpty(paths) && NoDots(paths)
    ensures SplitAll(JoinAll(paths)) == paths
  {
    forall i | 0 <= i < |paths| ensures SplitAll(JoinAll(paths))[i] == paths[i] {
      assert NoDotsIn(paths[i]);
      SplitJoin(paths[i], '.');
    }
  }

  /** A table of dot-free segments never deletes a key that contains a dot. */
  lemma NoDottedLeaves(paths: seq<seq<string>>)
    requires AllNonEmpty(paths) && NoDots(paths)
    ensures forall k :: k in Leaves(paths) ==> '.' !in k
  {
  }

  /** Key removal limited to `gone` carries over to the maps a walk reaches. */
  lemma {:induction false} RemovedOnlyWalk(a: Dict, b: Dict, path: seq<string>, gone: set<string>)
    requires RemovedOnly(VMap(a), VMap(b), gone)
    requires Walkable(a, path)
    ensures Walkable(b, path)
    ensures RemovedOnly(VMap(Descend(a, path)), VMap(Descend(b, path)), gone)
    decreases |path|
  {
    if path != [] {
      assert RemovedOnly(a[path[0]], b[path[0]], gone);
      RemovedOnlyWalk(a[path[0]].entries, b[path[0]].entries, path[1..], gone);
    }
  }

  /** The outer loop of removeRuntimeFields (exact = false) and of the path
      deletions in cleanSpec (exact = true): split every entry of the table
      on '.' and remove that path. */
  method RemoveEach(m: Dict, table: seq<string>, exact: bool) returns (r: Dict)
    ensures r == RemoveAll(m, SplitAll(table), exact)
  {
    ghost var paths := SplitAll(table);
    r := m;
    var j := 0;
    while j < |table|
      invariant 0 <= j <= |table|
      invariant RemoveAll(r, paths[j..], exact) == RemoveAll(m, paths, exact)
    {
      var parts := Split(table[j], '.');
      ghost var before := r;
      if exact {
        r := RemoveExactPath(r, parts);
      } else {
        r := RemoveReachedPath(r, parts);
      }
      RemoveAllStep(before, paths, exact, j);
      j := j + 1;
    }
  }

  /** Every path of a table is honoured wherever its leading segments lead to
      maps in the result. */
  lemma RemoveAllHonoursEvery(d: Dict, paths: seq<seq<string>>, exact: bool)
    requires AllNonEmpty(paths)
    ensures Honoured(RemoveAll(d, paths, exact), paths)
  {
    forall j | 0 <= j < |paths| {
      RemoveAllStrict(d, paths, exact, j);
    }
  }

  /** A key containing '.' is never deleted, at any depth, by a table whose
      segments come from splitting on '.'. */
  lemma {:induction false} DottedKeysKept(d: Dict, paths: seq<seq<string>>, exact: bool, path: seq<string>, key: string)
    requires AllNonEmpty(paths) && NoDots(paths)
    requires '.' in key
    requires Walkable(RemoveAll(d, paths, exact), path)
    ensures Walkable(d, path)
    ensures key in Descend(d, path) ==> key in Descend(RemoveAll(d, paths, exact), path)
  {
    var r := RemoveAll(d, paths, exact);
    RemovedOnlyWalk(r, d, path, Leaves(paths));
    NoDottedLeaves(paths);
  }

  /** A table of plain field names, each a path of one segment. */
  function Singletons(names: seq<string>): (paths: seq<seq<string>>)
    ensures |paths| == |names| && AllNonEmpty(paths)
    ensures forall i :: 0 <= i < |names| ==> paths[i] == [names[i]]
  {
    seq(|names|, i requires 0 <= i < |names| => [names[i]])
  }

  /** A table of plain names followed by a table of paths, joined, is the
      names followed by the joined paths. */
  lemma JoinAllAppend(names: seq<string>, paths: seq<seq<string>>)
    requires AllNonEmpty(paths)
    ensures AllNonEmpty(Singletons(names) + paths)
    ensures JoinAll(Singletons(names) + paths) == names + JoinAll(paths)
  {
    var all := Singletons(names) + paths;
    assert AllNonEmpty(all) by {
      forall i | 0 <= i < |all| ensures |all[i]| >= 1 {
        if i >= |names| { assert all[i] == paths[i - |names|]; }
      }
    }
    forall i | 0 <= i < |all| ensures JoinAll(all)[i] == (names + JoinAll(paths))[i] {
      if i < |names| {
        assert all[i] == [names[i]];
      } else {
        assert all[i] == paths[i - |names|];
      }
    }
  }

  /** Plain names free of the separator make a dot-free table. */
  lemma NoDotsAppend(names: seq<string>, paths: seq<seq<string>>)
    requires forall i :: 0 <= i < |names| ==> '.' !in names[i]
    requires NoDots(paths)
    ensures NoDots(Singletons(names) + paths)
  {
    var all := Singletons(names) + paths;
    forall i | 0 <= i < |all| ensures NoDotsIn(all[i]) {
      if i < |names| {
        assert all[i] == [names[i]];
      } else {
        assert all[i] == paths[i - |names|];
      }
    }
  }

  /** Every path of the table is honoured in `r`: wherever its leading
      segments lead to maps, its last segment is missing from the map they
      lead to. */
  ghost predicate Honoured(r: Dict, paths: seq<seq<string>>)
    requires AllNonEmpty(paths)
  {
    forall j :: 0 <= j < |paths| && Walkable(r, Init(paths[j])) ==> Last(paths[j]) !in Descend(r, Init(paths[j]))
  }

  /** Removing more entries keeps every path honoured. */
  lemma HonouredWithin(a: Dict, b: Dict, paths: seq<seq<string>>)
    requires AllNonEmpty(paths) && Honoured(b, paths)
    requires Within(VMap(a), VMap(b))
    ensures Honoured(a, paths)
  {
    forall j | 0 <= j < |paths| && Walkable(a, Init(paths[j]))
      ensures Last(paths[j]) !in Descend(a, Init(paths[j]))
    {
      WithinWalk(a, b, Init(paths[j]));
    }
  }

  /** Field names below a common path: `prefix + [name]` for every name. */
  function Under(prefix: seq<string>, names: seq<string>): (paths: seq<seq<string>>)
    ensures |paths| == |names| && AllNonEmpty(paths)
    ensures forall i :: 0 <= i < |names| ==> paths[i] == prefix + [names[i]]
  {
    seq(|names|, i requires 0 <= i < |names| => prefix + [names[i]])
  }

  lemma NoDotsUnder(prefix: seq<string>, names: seq<string>)
    requires NoDotsIn(prefix) && NoDotsIn(names)
    ensures NoDots(Under(prefix, names))
  {
    forall i | 0 <= i < |names| ensures NoDotsIn(Under(prefix, names)[i]) {
      var p := Under(prefix, names)[i];
      assert p == prefix + [names[i]];
      forall j | 0 <= j < |p| ensures '.' !in p[j] {
        if j < |prefix| { assert p[j] == prefix[j]; } else { assert p[j] == names[i]; }
      }
    }
  }

  /** In the strict mode of cleanSpec a top-level key is deleted only by the
      one-segment path that names it. */
  lemma {:induction false} RemoveAllExactKeepsTop(d: Dict, paths: seq<seq<string>>, k: string)
    requires AllNonEmpty(paths)
    requires k in d
    requires forall i :: 0 <= i < |paths| ==> paths[i] != [k]
    ensures k in RemoveAll(d, paths, true)
    decreases |paths|
  {
    if paths != [] {
      var next := Remove(d, paths[0], true);
      if |paths[0]| == 1 {
        assert paths[0] == [paths[0][0]];
      }
      RemoveAllExactKeepsTop(next, paths[1..], k);
    }
  }

  /** In the strict mode, a top-level entry that no path starts with comes
      through unchanged: a longer path only edits inside the map under its
      first segment, and only when the whole walk succeeds. */
  lemma {:induction false} RemoveAllExactKeepsEntry(d: Dict, paths: seq<seq<string>>, k: string)
    requires AllNonEmpty(paths)
    requires k in d
    requires forall i :: 0 <= i < |paths| ==> paths[i][0] != k
    ensures var r := RemoveAll(d, paths, true); k in r && r[k] == d[k]
    decreases |paths|
  {
    if paths != [] {
      var next := Remove(d, paths[0], true);
      RemoveAllExactKeepsEntry(next, paths[1..], k);
    }
  }

  /** In the strict mode, plain names followed by longer paths delete
      exactly the named top-level keys. */
  lemma ExactTopKeys(d: Dict, names: seq<string>, rest: seq<seq<string>>)
    requires AllNonEmpty(rest) && forall i :: 0 <= i < |rest| ==> |rest[i]| > 1
    ensures AllNonEmpty(Singletons(names) + rest)
    ensures forall k :: k in RemoveAll(d, Singletons(names) + rest, true) <==> k in d && k !in names
  {
    var paths := Singletons(names) + rest;
    assert forall i :: 0 <= i < |paths| ==> paths[i] == if i < |names| then [names[i]] else rest[i - |names|];
    var r := RemoveAll(d, paths, true);
    RemoveAllHonoursEvery(d, paths, true);
    forall k | k in names ensures k !in r {
      var j :| 0 <= j < |names| && names[j] == k;
      assert Walkable(r, Init(paths[j]));
    }
    forall k | k in d && k !in names ensures k in r {
      RemoveAllExactKeepsTop(d, paths, k);
    }
  }

  /** When "status" is the first path, a later two-segment path under
      "status" deletes its leaf from the top level. */
  lemma StatusFirstFallback(d: Dict, paths: seq<seq<string>>, j: nat)
    requires AllNonEmpty(paths) && 0 < j < |paths| && |paths[j]| == 2
    requires paths[0] == [paths[j][0]]
    ensures paths[0][0] !in RemoveAll(d, paths, false)
    ensures paths[j][1] !in RemoveAll(d, paths, false)
  {
    var next := Remove(d, paths[0], false);
    assert RemoveAll(d, paths, false) == RemoveAll(next, paths[1..], false);
    RemoveAllAbsent(next, paths[1..], false, paths[0][0]);
    RemoveAllFallback(next, paths[1..], j - 1);
  }

  /** A two-segment path honoured in `r` removes its leaf from the map under
      its first segment. */
  lemma HonouredUnder(r: Dict, paths: seq<seq<string>>, head: string, j: nat)
    requires AllNonEmpty(paths) && Honoured(r, paths)
    requires j < |paths| && |paths[j]| == 2 && paths[j][0] == head
    ensures GetMap(r, head).Some? ==> paths[j][1] !in GetMap(r, head).value
  {
    if GetMap(r, head).Some? {
      assert Init(paths[j]) == [head];
      assert Walkable(r, [head]) && Descend(r, [head]) == r[head].entries by {
        assert [head][1..] == [];
      }
    }
  }

  /** Scalar entries survive a table of runtime paths (from `s`), the
      recursion of cleanupMap (to `c`) and the sweep of empty maps (to `r`),
      unless a path ends in their key. */
  lemma SweepScalars(s: Dict, paths: seq<seq<string>>, c: Dict, r: Dict)
    requires AllNonEmpty(paths)
    requires c.Keys == RemoveAll(s, paths, false).Keys
    requires forall k :: k in RemoveAll(s, paths, false) ==> ChildSwept(c[k], RemoveAll(s, paths, false)[k], Leaves(paths))
    requires forall k :: k in r <==> k in c && !IsEmptyMap(c[k])
    requires forall k :: k in r ==> r[k] == c[k]
    ensures ScalarsKept(r, s, Leaves(paths))
  {
    var t := RemoveAll(s, paths, false);
    forall k | k in s && IsScalar(s[k]) && k !in Leaves(paths) ensures k in r && r[k] == s[k] {
      RemoveAllKeepsScalars(s, paths, false, k);
      assert ChildSwept(c[k], t[k], Leaves(paths));
    }
  }

  /** A first path of one segment deletes its key from the top level, and
      nothing after it can bring the key back. */
  lemma FirstTopKeyRemoved(d: Dict, paths: seq<seq<string>>)
    requires AllNonEmpty(paths) && |paths| > 0 && |paths[0]| == 1
    ensures paths[0][0] !in RemoveAll(d, paths, false)
  {
    var next := Remove(d, paths[0], false);
    assert RemoveAll(d, paths, false) == RemoveAll(next, paths[1..], false);
    RemoveAllAbsent(next, paths[1..], false, paths[0][0]);
  }
}
