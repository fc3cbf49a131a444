/**
  Runs of a small machine for the language a+ (one or more a's). In `q1` the machine
  either moves right into `q2` or tries to move left, which from the left edge rejects that
  branch; `q2` moves right over a's and accepts on the first blank. There is no rule for `b`.
 */
module APlusScenarios {
  import opened Stepper
  import opened Explorer
  import opened RunProperties

  const APlus: Machine := Machine("q1", "qacc", "qrej", map[
    "q1" := map['a' := [Rule("q2", 'a', R), Rule("q1", 'a', L)]],
    "q2" := map['a' := [Rule("q2", 'a', R)], '_' := [Rule("qacc", '_', R)]]
  ])

  /** The expansion of a one-configuration level. */
  lemma {:induction false} ExpandSingle(m: Machine, c: Config)
    ensures Expand(m, [c]) == Contribution(m, c)
  {
  }

  /** The expansion of a two-configuration level. */
  lemma {:induction false} ExpandPair(m: Machine, c: Config, d: Config)
    ensures Expand(m, [c, d]) == Contribution(m, c) + Contribution(m, d)
  {
    assert [c, d][..1] == [c];
    ExpandSingle(m, c);
  }

  /** From the start on an input beginning with `a`: the right move into `q2`, and the left
      move off the edge, which rejects with the tapes unchanged. */
  lemma {:induction false} StepFromStart(rest: Tape)
    ensures Step(APlus, Config("", "q1", ['a'] + rest)) ==
      [Config("a", "q2", rest), Config("", "qrej", ['a'] + rest)]
  {
    var c := Config("", "q1", ['a'] + rest);
    var rules := [Rule("q2", 'a', R), Rule("q1", 'a', L)];
    assert APlus.delta["q1"]['a'] == rules;
    StepFollowsTable(APlus, c);
    assert ApplyRule(APlus, c, rules[0]) == Config("a", "q2", rest) by {
      assert "" + ['a'] == "a" && c.right[1..] == rest;
    }
  }

  /** On the blank after `a`, `q2` accepts. */
  lemma {:induction false} StepOnBlankAfterA()
    ensures Step(APlus, Config("a", "q2", "")) == [Config("a_", "qacc", "")]
  {
    var c := Config("a", "q2", "");
    var rules := [Rule("qacc", '_', R)];
    assert APlus.delta["q2"]['_'] == rules;
    StepFollowsTable(APlus, c);
    assert ApplyRule(APlus, c, rules[0]) == Config("a_", "qacc", "") by {
      assert "a" + ['_'] == "a_";
    }
  }

  /** The levels of the run on `a`: the right move and the rejected left move, then acceptance. */
  lemma {:induction false} LevelsOfA()
    ensures Level(APlus, "a", 0) == [Config("", "q1", "a")]
    ensures Level(APlus, "a", 1) == [Config("a", "q2", ""), Config("", "qrej", "a")]
    ensures Level(APlus, "a", 2) == [Config("a_", "qacc", "")]
  {
    var l0 := [Config("", "q1", "a")];
    var l1 := [Config("a", "q2", ""), Config("", "qrej", "a")];
    assert Expand(APlus, l0) == l1 by {
      StepFromStart("");
      assert ['a'] + "" == "a";
      ExpandSingle(APlus, l0[0]);
    }
    assert Expand(APlus, l1) == [Config("a_", "qacc", "")] by {
      StepOnBlankAfterA();
      ExpandPair(APlus, l1[0], l1[1]);
    }
  }

  /** On `a` a run goes on past levels 0 and 1 and stops at level 2, which accepts. */
  lemma {:induction false} FirstStopOnA()
    ensures forall k: nat :: k < 2 ==> !StopsAt(APlus, "a", 5, k)
    ensures HasAccept(APlus, Level(APlus, "a", 2))
  {
    LevelsOfA();
    GoesOnPast(APlus, "a", 5, 0);
    GoesOnPast(APlus, "a", 5, 1);
    assert Level(APlus, "a", 2)[0].state == APlus.accept;
    forall k: nat | k < 2
      ensures !StopsAt(APlus, "a", 5, k)
    {
      assert k == 0 || k == 1;
    }
  }

  /** Input `a` is accepted at level 2, after generating three configurations. */
  lemma {:induction false} AcceptsA(r: Summary)
    requires IsRunSummary(APlus, "a", 5, r)
    ensures r.acceptFound && !r.allReject && !r.maxDepthOccurred
    ensures r.depth == 2 && r.numConfigs == 3
  {
    FirstStopOnA();
    OutcomeAtFirstStop(APlus, "a", 5, r, 2);
    assert |r.tree[1]| == 2 && |r.tree[2]| == 1 by {
      LevelsOfA();
    }
    var init := r.tree[..2];
    assert init[1] == r.tree[1] && Generated(init[..1]) == 0;
    assert Generated(init) == 2;
  }

  /** In `q2` on the second `a`, the machine moves right over it. */
  lemma {:induction false} StepOverSecondA()
    ensures Step(APlus, Config("a", "q2", "a")) == [Config("aa", "q2", "")]
  {
    var c := Config("a", "q2", "a");
    var rules := [Rule("q2", 'a', R)];
    assert APlus.delta["q2"]['a'] == rules;
    StepFollowsTable(APlus, c);
    assert ApplyRule(APlus, c, rules[0]) == Config("aa", "q2", "") by {
      assert "a" + ['a'] == "aa" && "a"[1..] == "";
    }
  }

  /** The levels of the run on `aa`, up to the level where `q2` has passed both a's. */
  lemma {:induction false} LevelsOfAA()
    ensures Level(APlus, "aa", 0) == [Config("", "q1", "aa")]
    ensures Level(APlus, "aa", 1) == [Config("a", "q2", "a"), Config("", "qrej", "aa")]
    ensures Level(APlus, "aa", 2) == [Config("aa", "q2", "")]
  {
    var l0 := [Config("", "q1", "aa")];
    var l1 := [Config("a", "q2", "a"), Config("", "qrej", "aa")];
    assert Expand(APlus, l0) == l1 by {
      StepFromStart("a");
      assert ['a'] + "a" == "aa";
      ExpandSingle(APlus, l0[0]);
    }
    assert Expand(APlus, l1) == [Config("aa", "q2", "")] by {
      StepOverSecondA();
      ExpandPair(APlus, l1[0], l1[1]);
    }
  }

  /** With bound 1 a run on `aa` examines levels 0 and 1 without stopping, and level 2 lies
      beyond the bound. */
  lemma {:induction false} FirstStopOnAA()
    ensures forall k: nat :: k < 2 ==> !StopsAt(APlus, "aa", 1, k)
    ensures StopsAt(APlus, "aa", 1, 2)
  {
    LevelsOfAA();
    GoesOnPast(APlus, "aa", 1, 0);
    GoesOnPast(APlus, "aa", 1, 1);
    forall k: nat | k < 2
      ensures !StopsAt(APlus, "aa", 1, k)
    {
      assert k == 0 || k == 1;
    }
  }

  /** Input `aa` with bound 1 stops on the bound: level 2 was generated but not examined, the
      reported depth is 1 and three configurations were generated. */
  lemma {:induction false} ExceedsBoundOnAA(r: Summary)
    requires IsRunSummary(APlus, "aa", 1, r)
    ensures r.maxDepthOccurred && !r.acceptFound && !r.allReject
    ensures r.depth == 1 && r.numConfigs == 3
  {
    FirstStopOnAA();
    OutcomeAtFirstStop(APlus, "aa", 1, r, 2);
    assert |r.tree[1]| == 2 && |r.tree[2]| == 1 by {
      LevelsOfAA();
    }
    var init := r.tree[..2];
    assert init[1] == r.tree[1] && Generated(init[..1]) == 0;
    assert Generated(init) == 2;
  }

  /** The levels of the run on `b`: the implicit reject, then nothing. */
  lemma {:induction false} LevelsOfB()
    ensures Level(APlus, "b", 0) == [Config("", "q1", "b")]
    ensures Level(APlus, "b", 1) == [Config("", "qrej", "b")]
    ensures Level(APlus, "b", 2) == []
  {
  }

  /** On `b` a run goes on past level 0 and stops at level 1, which holds no accepting
      configuration and has no successors. */
  lemma {:induction false} FirstStopOnB()
    ensures forall k: nat :: k < 1 ==> !StopsAt(APlus, "b", 5, k)
    ensures StopsAt(APlus, "b", 5, 1) && !HasAccept(APlus, Level(APlus, "b", 1))
  {
    LevelsOfB();
    GoesOnPast(APlus, "b", 5, 0);
    LevelSucc(APlus, "b", 1);
    forall k: nat | k < 1
      ensures !StopsAt(APlus, "b", 5, k)
    {
      assert k == 0;
    }
  }

  /** Input `b` has no rule: the only successor is the implicit reject, after which nothing
      is left to expand, so every branch is reported rejected at level 1. */
  lemma {:induction false} RejectsB(r: Summary)
    requires IsRunSummary(APlus, "b", 5, r)
    ensures r.allReject && !r.acceptFound && !r.maxDepthOccurred
    ensures r.depth == 1 && r.numConfigs == 1
    ensures r.tree == [[Config("", "q1", "b")], [Config("", "qrej", "b")]]
  {
    FirstStopOnB();
    OutcomeAtFirstStop(APlus, "b", 5, r, 1);
    var l0, l1 := r.tree[0], r.tree[1];
    assert l0 == [Config("", "q1", "b")] && l1 == [Config("", "qrej", "b")] by {
      LevelsOfB();
    }
    assert r.tree == [l0] + [l1];
    GeneratedAppend([l0], l1);
  }
}
