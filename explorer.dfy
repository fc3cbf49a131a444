/**
  The breadth-first explorer: expands the configuration tree level by level and stops when
  a level holds an accepting configuration, when a level produces no successors, or when the
  next level to examine lies beyond the depth bound.
 */
module Explorer {
  import opened Stepper

  /** What a run reports: the three outcome flags, the index of the last level examined,
      the number of successor configurations generated, and the tree of levels. */
  datatype Summary = Summary(
    acceptFound: bool,
    allReject: bool,
    maxDepthOccurred: bool,
    depth: int,
    numConfigs: nat,
    tree: seq<seq<Config>>)

  /** What one configuration adds to the next level: nothing if it is in the reject state,
      its successors otherwise. A configuration in the accept state is never expanded by a
      run, which stops scanning when it meets one. */
  function Contribution(m: Machine, c: Config): seq<Config>
  {
    if c.state == m.reject then [] else Step(m, c)
  }

  /** The next level: the successors of every live configuration of `level`, concatenated
      in configuration order. */
  function Expand(m: Machine, level: seq<Config>): seq<Config>
  {
    if level == [] then []
    else Expand(m, level[..|level| - 1]) + Contribution(m, level[|level| - 1])
  }

  /** Level `k` of the configuration tree: the start configuration, expanded `k` times.
      Acceptance is not taken into account here: past the first level holding an accepting
      configuration these levels go on, although a run never builds them. */
  function Level(m: Machine, input: Tape, k: nat): seq<Config>
  {
    ExpandTimes(m, [Config([], m.start, input)], k)
  }

  /** `level` expanded `k` times. */
  function ExpandTimes(m: Machine, level: seq<Config>, k: nat): seq<Config>
    decreases k
  {
    if k == 0 then level else ExpandTimes(m, Expand(m, level), k - 1)
  }

  /** Expanding `k + 1` times is expanding `k` times and then once more. */
  lemma {:induction false} ExpandTimesSucc(m: Machine, level: seq<Config>, k: nat)
    ensures ExpandTimes(m, level, k + 1) == Expand(m, ExpandTimes(m, level, k))
    decreases k
  {
    if k > 0 {
      var next := Expand(m, level);
      ExpandTimesSucc(m, next, k - 1);
      assert ExpandTimes(m, level, k + 1) == ExpandTimes(m, next, k);
      assert ExpandTimes(m, level, k) == ExpandTimes(m, next, k - 1);
    }
  }

  /** Each level is the expansion of the one before. */
  lemma {:induction false} LevelSucc(m: Machine, input: Tape, k: nat)
    ensures Level(m, input, k + 1) == Expand(m, Level(m, input, k))
  {
    ExpandTimesSucc(m, [Config([], m.start, input)], k);
  }

  /** True iff some configuration of `level` is in the accept state. */
  predicate HasAccept(m: Machine, level: seq<Config>)
  {
    exists i :: 0 <= i < |level| && level[i].state == m.accept
  }

  /** The number of configurations in every level but the first. */
  function Generated(tree: seq<seq<Config>>): nat
  {
    if |tree| <= 1 then 0 else Generated(tree[..|tree| - 1]) + |tree[|tree| - 1]|
  }

  /** `r` is what a run with bound `maxDepth` reports. The tree holds levels 0 to
      `|r.tree| - 1`, none of them empty, and no level before the last holds an accepting
      configuration. The run stopped for exactly one of three reasons: the last level lies
      beyond the bound (it was generated but not examined, and the reported depth is the
      level before it); or it is within the bound and holds an accepting configuration; or
      it is within the bound, holds none and produces no successors. */
  ghost predicate IsRunSummary(m: Machine, input: Tape, maxDepth: int, r: Summary)
  {
    && |r.tree| >= 1
    && (forall k :: 0 <= k < |r.tree| ==> r.tree[k] == Level(m, input, k) && r.tree[k] != [])
    && r.numConfigs == Generated(r.tree)
    && (forall k :: 0 <= k < |r.tree| - 1 ==> !HasAccept(m, r.tree[k]))
    && var last := |r.tree| - 1;
    && var beyond := last > maxDepth;
    && (beyond ==> last == (if maxDepth < 0 then 0 else maxDepth + 1))
    && (!beyond ==> HasAccept(m, r.tree[last]) || Expand(m, r.tree[last]) == [])
    && r.maxDepthOccurred == beyond
    && r.acceptFound == (!beyond && HasAccept(m, r.tree[last]))
    && r.allReject == (!beyond && !HasAccept(m, r.tree[last]))
    && r.depth == (if beyond then last - 1 else last)
  }

  /** Appending a level adds its size to the count. */
  lemma {:induction false} GeneratedAppend(tree: seq<seq<Config>>, next: seq<Config>)
    requires |tree| >= 1
    ensures Generated(tree + [next]) == Generated(tree) + |next|
  {
  }

  /** Appending the expansion of the last level, when it is not empty, extends a tree of
      levels by the next level. */
  lemma {:induction false} LevelsAppend(m: Machine, input: Tape, tree: seq<seq<Config>>, next: seq<Config>)
    requires |tree| >= 1
    requires forall k :: 0 <= k < |tree| ==> tree[k] == Level(m, input, k) && tree[k] != []
    requires forall k :: 0 <= k < |tree| ==> !HasAccept(m, tree[k])
    requires next == Expand(m, tree[|tree| - 1]) && next != []
    ensures forall k :: 0 <= k < |tree| + 1 ==> (tree + [next])[k] == Level(m, input, k) && (tree + [next])[k] != []
    ensures forall k :: 0 <= k < |tree| ==> !HasAccept(m, (tree + [next])[k])
  {
    LevelSucc(m, input, |tree| - 1);
  }

  /** Expanding one more configuration appends its contribution. */
  lemma {:induction false} ExpandPrefix(m: Machine, level: seq<Config>, i: nat)
    requires i < |level|
    ensures Expand(m, level[..i + 1]) == Expand(m, level[..i]) + Contribution(m, level[i])
  {
    assert level[..i + 1][..i] == level[..i];
  }

  /** Scans one level in order: stops at the first accepting configuration, skips rejecting
      ones and collects the successors of all others. */
  method ScanLevel(m: Machine, level: seq<Config>) returns (next: seq<Config>, accepted: bool)
    ensures accepted <==> HasAccept(m, level)
    ensures !accepted ==> next == Expand(m, level)
  {
    next := [];
    accepted := false;
    for i := 0 to |level|
      invariant !accepted
      invariant next == Expand(m, level[..i])
      invariant forall j :: 0 <= j < i ==> level[j].state != m.accept
    {
      var cfg := level[i];
      if cfg.state == m.accept {
        accepted := true;
        break;
      }
      ExpandPrefix(m, level, i);
      if cfg.state == m.reject {
        continue;
      }
      next := next + Step(m, cfg);
    }
    assert !accepted ==> level[..|level|] == level;
  }

  /** Runs the machine on `input`, exploring every branch breadth-first up to level `maxDepth`. */
  method ProcessInput(m: Machine, input: Tape, maxDepth: int) returns (res: Summary)
    ensures IsRunSummary(m, input, maxDepth, res)
    ensures res.tree[0] == [Config([], m.start, input)]
    ensures (if res.acceptFound then 1 else 0) + (if res.allReject then 1 else 0)
      + (if res.maxDepthOccurred then 1 else 0) == 1
    ensures -1 <= res.depth <= maxDepth || (maxDepth < -1 && res.depth == -1)
    ensures |res.tree| <= (if maxDepth < 0 then 1 else maxDepth + 2)
  {
    var tree := [[Config([], m.start, input)]];
    var numConfigs := 0;
    var acceptFound, allReject, maxDepthOccurred := false, true, false;
    var currentLevel := 0;
    while currentLevel < |tree|
      invariant 1 <= |tree|
      invariant forall k :: 0 <= k < |tree| ==> tree[k] == Level(m, input, k) && tree[k] != []
      invariant numConfigs == Generated(tree)
      invariant forall k :: 0 <= k < |tree| - 1 ==> !HasAccept(m, tree[k])
      invariant currentLevel == 0 || currentLevel - 1 <= maxDepth
      invariant !maxDepthOccurred
      invariant acceptFound != allReject
      // the level to examine is the newest one, or the run has already finished
      invariant |tree| == currentLevel + 1 || |tree| == currentLevel
      invariant |tree| == currentLevel + 1 ==> !acceptFound
      // finished by acceptance, or because the last level produced nothing
      invariant |tree| == currentLevel ==>
        if acceptFound then HasAccept(m, tree[|tree| - 1])
        else !HasAccept(m, tree[|tree| - 1]) && Expand(m, tree[|tree| - 1]) == []
      decreases maxDepth + 1 - currentLevel
    {
      if currentLevel > maxDepth {
        maxDepthOccurred := true;
        allReject := false;
        break;
      }

      var currentConfigs := tree[currentLevel];
      var nextConfigs, accepted := ScanLevel(m, currentConfigs);
      if accepted {
        acceptFound := true;
        allReject := false;
      }

      if !acceptFound {
        assert currentConfigs == tree[|tree| - 1];
        numConfigs := numConfigs + |nextConfigs|;
        if |nextConfigs| > 0 {
          GeneratedAppend(tree, nextConfigs);
          LevelsAppend(m, input, tree, nextConfigs);
          tree := tree + [nextConfigs];
        }
      }

      currentLevel := currentLevel + 1;
    }

    currentLevel := currentLevel - 1;
    res := Summary(acceptFound, allReject, maxDepthOccurred, currentLevel, numConfigs, tree);
  }
}
