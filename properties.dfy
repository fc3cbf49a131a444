/**
  What a breadth-first run guarantees about the machine: the next level is exactly the set of
  successors of the live configurations, acceptance is found at the shallowest accepting
  level, a rejection means that no branch ever accepts, and a run's summary is determined by
  its arguments.
 */
module RunProperties {
  import opened Stepper
  import opened Explorer

  /** A configuration is in the next level iff it is a successor of a configuration of the
      level that is not in the reject state. */
  lemma {:induction false} ExpandIsLiveSuccessors(m: Machine, level: seq<Config>, d: Config)
    ensures d in Expand(m, level) <==>
      exists i :: 0 <= i < |level| && level[i].state != m.reject && d in Step(m, level[i])
    decreases |level|
  {
    if level != [] {
      var n := |level| - 1;
      var init := level[..n];
      ExpandIsLiveSuccessors(m, init, d);
      assert Expand(m, level) == Expand(m, init) + Contribution(m, level[n]);
      if d in Expand(m, level) {
        if d in Expand(m, init) {
          var i :| 0 <= i < |init| && init[i].state != m.reject && d in Step(m, init[i]);
          assert level[i] == init[i];
        } else {
          assert level[n].state != m.reject && d in Step(m, level[n]);
        }
      } else {
        forall i | 0 <= i < |level| && level[i].state != m.reject
          ensures d !in Step(m, level[i])
        {
          if i < n {
            assert level[i] == init[i];
          }
        }
      }
    }
  }

  /** Configurations in the reject state contribute nothing: a level of rejecting
      configurations has an empty expansion, and with a table whose entries all list a rule
      that is the only way a level can have an empty expansion. */
  lemma {:induction false} ExpandEmptyIffAllRejecting(m: Machine, level: seq<Config>)
    requires WellFormed(m)
    ensures Expand(m, level) == [] <==> forall i :: 0 <= i < |level| ==> level[i].state == m.reject
    decreases |level|
  {
    if level != [] {
      var n := |level| - 1;
      ExpandEmptyIffAllRejecting(m, level[..n]);
      if level[n].state != m.reject {
        StepNeverEmpty(m, level[n]);
      }
      assert forall i :: 0 <= i < n ==> level[i] == level[..n][i];
    }
  }

  /** Once a level is empty, so is every level after it. */
  lemma {:induction false} EmptyLevelsStayEmpty(m: Machine, input: Tape, k: nat, j: nat)
    requires Level(m, input, k) == []
    requires k <= j
    ensures Level(m, input, j) == []
    decreases j - k
  {
    if k < j {
      LevelSucc(m, input, k);
      assert Level(m, input, k + 1) == Expand(m, []) == [];
      EmptyLevelsStayEmpty(m, input, k + 1, j);
    }
  }

  /** If levels 0 to `n` hold no accepting configuration and level `n + 1` is empty, no
      level holds one, and every level after `n` is empty. */
  lemma {:induction false} NoAcceptAfterDeadLevel(m: Machine, input: Tape, n: nat)
    requires forall k: nat :: k <= n ==> !HasAccept(m, Level(m, input, k))
    requires Level(m, input, n + 1) == []
    ensures forall k: nat :: !HasAccept(m, Level(m, input, k)) && (k > n ==> Level(m, input, k) == [])
  {
    forall k: nat
      ensures !HasAccept(m, Level(m, input, k)) && (k > n ==> Level(m, input, k) == [])
    {
      if k > n {
        EmptyLevelsStayEmpty(m, input, n + 1, k);
      }
    }
  }

  /** The levels a run examined and found free of acceptance. */
  lemma {:induction false} ExaminedLevels(m: Machine, input: Tape, maxDepth: int, r: Summary)
    requires IsRunSummary(m, input, maxDepth, r)
    ensures forall k: nat :: k < |r.tree| ==> Level(m, input, k) == r.tree[k] && r.tree[k] != []
    ensures forall k: nat :: k < |r.tree| - 1 ==> !HasAccept(m, Level(m, input, k))
    ensures !r.maxDepthOccurred ==> Level(m, input, |r.tree|) == Expand(m, r.tree[|r.tree| - 1])
  {
    LevelSucc(m, input, |r.tree| - 1);
  }

  /** The run accepts iff some level within the bound holds an accepting configuration, and
      it then reports the shallowest such level. */
  lemma {:induction false} AcceptedAtShallowestLevel(m: Machine, input: Tape, maxDepth: int, r: Summary)
    requires IsRunSummary(m, input, maxDepth, r)
    ensures r.acceptFound <==> exists k: nat :: k <= maxDepth && HasAccept(m, Level(m, input, k))
    ensures r.acceptFound ==>
      && 0 <= r.depth <= maxDepth
      && HasAccept(m, Level(m, input, r.depth))
      && forall k: nat :: k < r.depth ==> !HasAccept(m, Level(m, input, k))
  {
    ExaminedLevels(m, input, maxDepth, r);
    if r.allReject {
      RejectedNeverAccepts(m, input, maxDepth, r);
    } else if r.maxDepthOccurred {
      forall k: nat | k <= maxDepth
        ensures !HasAccept(m, Level(m, input, k))
      {
        assert k < |r.tree| - 1;
      }
    } else {
      assert r.acceptFound;
      var d: nat := r.depth;
      assert d <= maxDepth;
      assert HasAccept(m, Level(m, input, d));
      assert exists k: nat :: k <= maxDepth && HasAccept(m, Level(m, input, k));
    }
  }

  /** A rejecting run reports its last level as its depth, and the level after it is empty;
      a step of `RejectedNeverAccepts`. */
  lemma {:induction false} RejectedAtLastLevel(m: Machine, input: Tape, maxDepth: int, r: Summary)
    requires IsRunSummary(m, input, maxDepth, r)
    requires r.allReject
    ensures r.depth == |r.tree| - 1
    ensures Level(m, input, r.depth + 1) == []
  {
    ExaminedLevels(m, input, maxDepth, r);
  }

  /** A rejecting run found no accepting configuration on any level up to its depth; a step
      of `RejectedNeverAccepts`, stated apart to keep that proof small. */
  lemma {:induction false} RejectedExaminedLevels(m: Machine, input: Tape, maxDepth: int, r: Summary)
    requires IsRunSummary(m, input, maxDepth, r)
    requires r.allReject
    ensures forall k: nat :: k < |r.tree| ==> !HasAccept(m, Level(m, input, k))
  {
  }

  /** A run that reports rejection has explored the whole tree: the machine accepts on no
      branch, at any depth. */
  lemma {:induction false} RejectedNeverAccepts(m: Machine, input: Tape, maxDepth: int, r: Summary)
    requires IsRunSummary(m, input, maxDepth, r)
    requires r.allReject
    ensures forall k: nat :: !HasAccept(m, Level(m, input, k)) && (k > r.depth ==> Level(m, input, k) == [])
  {
    RejectedAtLastLevel(m, input, maxDepth, r);
    RejectedExaminedLevels(m, input, maxDepth, r);
    NoAcceptAfterDeadLevel(m, input, |r.tree| - 1);
  }

  /** With a table whose entries all list a rule, a rejection means that every configuration
      on the last level examined is in the reject state. */
  lemma {:induction false} RejectedLevelIsAllRejecting(m: Machine, input: Tape, maxDepth: int, r: Summary)
    requires WellFormed(m)
    requires IsRunSummary(m, input, maxDepth, r)
    requires r.allReject
    ensures 0 <= r.depth < |r.tree|
    ensures forall i :: 0 <= i < |r.tree[r.depth]| ==> r.tree[r.depth][i].state == m.reject
  {
    ExpandEmptyIffAllRejecting(m, r.tree[|r.tree| - 1]);
  }

  /** A run stopped by the bound examined levels 0 to `maxDepth` (none of them accepting or
      dead), and its count covers every level it generated, including the unexamined one. */
  lemma {:induction false} DepthExceededExaminedEveryLevel(m: Machine, input: Tape, maxDepth: int, r: Summary)
    requires IsRunSummary(m, input, maxDepth, r)
    requires r.maxDepthOccurred
    requires maxDepth >= 0
    ensures r.depth == maxDepth && |r.tree| == maxDepth + 2
    ensures forall k: nat :: k <= maxDepth ==> !HasAccept(m, Level(m, input, k))
    ensures forall k: nat :: k <= maxDepth + 1 ==> Level(m, input, k) != []
  {
  }

  /** A negative bound stops the run at level 0 before it is examined: only the start level is
      in the tree, nothing is counted and the reported depth is -1, whatever the bound. */
  lemma {:induction false} NegativeBoundStopsAtStart(m: Machine, input: Tape, maxDepth: int, r: Summary)
    requires IsRunSummary(m, input, maxDepth, r)
    requires maxDepth < 0
    ensures r.maxDepthOccurred && !r.acceptFound && !r.allReject
    ensures r.tree == [[Config([], m.start, input)]]
    ensures r.depth == -1 && r.numConfigs == 0
  {
  }

  /** True iff a run examining level `k` stops there: the level lies beyond the bound, holds
      an accepting configuration, or produces no successors. */
  ghost predicate StopsAt(m: Machine, input: Tape, maxDepth: int, k: nat)
  {
    k > maxDepth || HasAccept(m, Level(m, input, k)) || Expand(m, Level(m, input, k)) == []
  }

  /** A run with bound `maxDepth` goes on past level `k` when the level is within the bound,
      holds no accepting configuration and has successors. */
  lemma {:induction false} GoesOnPast(m: Machine, input: Tape, maxDepth: int, k: nat)
    requires k <= maxDepth
    requires !HasAccept(m, Level(m, input, k))
    requires Level(m, input, k + 1) != []
    ensures !StopsAt(m, input, maxDepth, k)
  {
    LevelSucc(m, input, k);
  }

  /** A run's last level is the first level at which the run stops. */
  lemma {:induction false} StopsAtLastLevelOnly(m: Machine, input: Tape, maxDepth: int, r: Summary)
    requires IsRunSummary(m, input, maxDepth, r)
    ensures StopsAt(m, input, maxDepth, |r.tree| - 1)
    ensures forall k: nat :: k < |r.tree| - 1 ==> !StopsAt(m, input, maxDepth, k)
  {
    var last := |r.tree| - 1;
    assert r.tree[last] == Level(m, input, last);
    forall k: nat | k < last
      ensures !StopsAt(m, input, maxDepth, k)
    {
      assert r.tree[k] == Level(m, input, k);
      assert r.tree[k + 1] == Level(m, input, k + 1);
      LevelSucc(m, input, k);
    }
  }

  /** The outcome of a run is decided by the first level `n` at which it stops: the bound
      was hit iff `n` lies beyond it, and otherwise the run accepts iff level `n` holds an
      accepting configuration and rejects iff it does not. */
  lemma {:induction false} OutcomeAtFirstStop(m: Machine, input: Tape, maxDepth: int, r: Summary, n: nat)
    requires IsRunSummary(m, input, maxDepth, r)
    requires StopsAt(m, input, maxDepth, n)
    requires forall k: nat :: k < n ==> !StopsAt(m, input, maxDepth, k)
    ensures |r.tree| == n + 1
    ensures r.maxDepthOccurred <==> n > maxDepth
    ensures r.acceptFound <==> n <= maxDepth && HasAccept(m, Level(m, input, n))
    ensures r.allReject <==> n <= maxDepth && !HasAccept(m, Level(m, input, n))
    ensures r.depth == (if n > maxDepth then n - 1 else n)
  {
    StopsAtLastLevelOnly(m, input, maxDepth, r);
    assert r.tree[n] == Level(m, input, n);
  }

  /** Two summaries of runs with the same arguments are equal: running twice on the same
      machine, input and bound reports the same outcome, depth, count and tree. */
  lemma {:induction false} RunIsDeterministic(m: Machine, input: Tape, maxDepth: int, r1: Summary, r2: Summary)
    requires IsRunSummary(m, input, maxDepth, r1)
    requires IsRunSummary(m, input, maxDepth, r2)
    ensures r1 == r2
  {
    StopsAtLastLevelOnly(m, input, maxDepth, r1);
    StopsAtLastLevelOnly(m, input, maxDepth, r2);
    assert |r1.tree| == |r2.tree|;
    assert r1.tree == r2.tree by {
      forall k | 0 <= k < |r1.tree|
        ensures r1.tree[k] == r2.tree[k]
      {
        assert r1.tree[k] == Level(m, input, k) == r2.tree[k];
      }
    }
  }
}
