/** The runtime field paths both versions start their table with. Each
    dotted entry of runtimeFieldsToRemove is written as the list of its
    segments; joining a list with '.' gives the entry back. */
module Runtime {
  import opened Tree
  import opened Paths

  /** The first ten entries of runtimeFieldsToRemove, the whole table of
      Klean.go. */
  const CommonRuntimePaths: seq<seq<string>> := [
    ["status"],
    ["template", "generation"],
    ["metadata", "generation"],
    ["metadata", "resourceVersion"],
    ["metadata", "selfLink"],
    ["metadata", "uid"],
    ["metadata", "creationTimestamp"],
    ["metadata", "deletionTimestamp"],
    ["metadata", "deletionGracePeriodSeconds"],
    ["metadata", "managedFields"]
  ]

  lemma CommonRowsA()
    ensures forall i :: 0 <= i < 5 ==> |CommonRuntimePaths[i]| >= 1 && NoDotsIn(CommonRuntimePaths[i])
  {
  }

  lemma CommonRowsB()
    ensures forall i :: 5 <= i < 10 ==> |CommonRuntimePaths[i]| >= 1 && NoDotsIn(CommonRuntimePaths[i])
  {
  }

  lemma CommonRuntimePathsWellFormed()
    ensures |CommonRuntimePaths| == 10
    ensures AllNonEmpty(CommonRuntimePaths) && NoDots(CommonRuntimePaths)
  {
    CommonRowsA();
    CommonRowsB();
  }

  /** No common path starts with or ends in "spec" or "data". */
  lemma CommonRuntimeHeads()
    ensures forall i :: 0 <= i < 10 ==>
      && CommonRuntimePaths[i][0] in {"status", "template", "metadata"}
      && Last(CommonRuntimePaths[i]) != "spec" && Last(CommonRuntimePaths[i]) != "data"
  {
  }

  /** Both halves of an appended table are well formed. */
  lemma AppendWellFormed(a: seq<seq<string>>, b: seq<seq<string>>)
    requires AllNonEmpty(a) && NoDots(a) && AllNonEmpty(b) && NoDots(b)
    ensures AllNonEmpty(a + b) && NoDots(a + b)
  {
    forall i | 0 <= i < |a + b| ensures |(a + b)[i]| >= 1 && NoDotsIn((a + b)[i]) {
      if i < |a| { assert (a + b)[i] == a[i]; } else { assert (a + b)[i] == b[i - |a|]; }
    }
  }
}
