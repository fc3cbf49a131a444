# Nondeterministic Turing machine tracer, modelled in Dafny

The tracer runs a nondeterministic Turing machine (NTM) on an input string. It explores
every branch of the machine's nondeterminism breadth-first, one level of the configuration
tree at a time. It reports one of three outcomes:

- it accepted, at the shallowest level holding a configuration in the accept state;
- it rejected, because every branch died out;
- it stopped, because the next level to examine lies beyond the depth bound.

Along with the outcome it reports the depth, the number of configurations generated and
the tree of levels.

The model has four modules:

- `stepper.dfy` (`Stepper`) holds the machine, its configurations and the one-step
  successor relation `Step`, which is the simulator's `get_next_config`. A configuration is
  a triple: the tape left of the head, the control state, and the tape from the head
  rightwards. The head reads the blank `_` when the right-hand tape is empty. With no rule
  for the state and symbol, the only successor is the implicit reject. Otherwise there is
  one successor per rule, in rule order. A left move at the left edge rejects that branch
  and drops the write.
- `explorer.dfy` (`Explorer`) holds the breadth-first run `ProcessInput`, which is the
  simulator's `process_input`. It is a method with the source's `while` loop, and the scan
  of one level (the source's inner `for` loop) is the method `ScanLevel`. Instead of
  printing, it returns a `Summary`: the flags `acceptFound`, `allReject` and
  `maxDepthOccurred`, the reported depth, the count `numConfigs`, and the tree. Its
  contract says the result satisfies `IsRunSummary`, which defines that result from the
  levels `Level(k)` of the configuration tree.
- `properties.dfy` (`RunProperties`) proves what such a run guarantees about the machine:
  - a level is exactly the successors of the live configurations of the level before;
  - acceptance is reported at the shallowest accepting level within the bound;
  - a rejection means no branch accepts at any depth;
  - the outcome is decided by the first level at which the run stops;
  - two runs with the same arguments report the same summary.
- `scenarios.dfy` (`APlusScenarios`) works through runs of a small hand-written machine
  for `a+`: `a` is accepted, `b` is rejected, and `aa` with bound 1 stops on the bound.

Three behaviours of the code, which the model keeps as they are:

- An entry that lists no rules yields no successors. Only a missing entry yields the
  implicit reject (`traceTM_MJ.py:27-30,63-64`). The CSV reader never builds an empty
  entry (`WellFormed`).
- The depth bound is any integer, as `process_input` accepts it. For a non-negative bound it
  is the highest level index that is examined. When the run stops on the bound, level
  `maxDepth + 1` has already been generated and counted in `numConfigs`, and the reported
  depth is `maxDepth` (`traceTM_MJ.py:84-88,110-120`). For a negative bound the run stops on
  the bound at level 0 before examining it: the reported depth is -1, whatever the bound,
  and the count is 0 (`NegativeBoundStopsAtStart`).
- The count includes only levels appended to the tree. On acceptance, the successors built
  while scanning the accepting level are not counted (`traceTM_MJ.py:109-114`).

## Model

| member | source | states |
|---|---|---|
| Stepper.ApplyRuleMoves | traceTM_MJ.py:31-60 | A left move at the left edge leaves both tapes unchanged and enters the reject state. Otherwise the rule's state is entered, the tape is the old one with the head cell overwritten (materialising a blank), and the head moves one cell. There are closed forms for right moves and for left moves with a non-empty left tape. The tape length is kept, or grows by one when the right-hand tape was empty. |
| Stepper.SuccessorsInRuleOrder | traceTM_MJ.py:28-61 | There is one successor per rule, and successor `i` is the one produced by rule `i`. |
| Stepper.StepFollowsTable | traceTM_MJ.py:17-64 | The symbol consulted is `_` on an empty right-hand tape and the head cell otherwise. With a table entry there is one successor per listed rule, in rule order. Without one there is exactly one successor, in the reject state, with both tapes unchanged. |
| Stepper.BlankReadsLikeEmpty | traceTM_MJ.py:20-24 | An empty right-hand tape reads like a single blank. The successors agree in number, states and left tapes, and the right tapes differ only on a rejecting branch that keeps the unmaterialised blank. |
| Stepper.StepNeverEmpty | traceTM_MJ.py:161-170 | When every table entry lists a rule (as the CSV reader builds it), every configuration has at least one successor. |
| Explorer.ExpandTimesSucc | traceTM_MJ.py:106-117 | Expanding a level `k + 1` times is expanding it `k` times and then once more. |
| Explorer.LevelSucc | traceTM_MJ.py:106-117 | Level `k + 1` of the tree is the expansion of level `k`. |
| Explorer.GeneratedAppend | traceTM_MJ.py:110-114 | Appending a level to the tree adds its size to the count of generated configurations. |
| Explorer.LevelsAppend | traceTM_MJ.py:113-114 | Appending the non-empty expansion of the last level extends a tree of levels `0..n-1` to levels `0..n`. |
| Explorer.ExpandPrefix | traceTM_MJ.py:93-107 | Scanning one more configuration appends exactly its contribution to the next level. |
| Explorer.ScanLevel | traceTM_MJ.py:91-107 | It reports acceptance iff the level holds a configuration in the accept state. Otherwise the next level it builds is the expansion of the whole level: rejecting configurations are skipped and the others' successors are appended in order. |
| Explorer.ProcessInput | traceTM_MJ.py:67-120 | The result is the run summary: the tree is levels `0..n` of the configuration tree, starting from `("", start, input)`, all non-empty. `numConfigs` is the size of every level but the first. No level before the last accepts. Exactly one flag is set, and it names the reason the run stopped. The depth is at most the bound (or -1 for a negative bound), and the tree has at most `maxDepth + 2` levels. |
| RunProperties.ExpandIsLiveSuccessors | traceTM_MJ.py:93-107 | A configuration is in the next level iff it is a successor of a configuration of the level that is not in the reject state. |
| RunProperties.ExpandEmptyIffAllRejecting | traceTM_MJ.py:102-107 | With a table whose entries all list a rule, a level has no successors iff all its configurations are in the reject state. |
| RunProperties.EmptyLevelsStayEmpty | traceTM_MJ.py:113-114 | Once a level is empty, every later level is empty. |
| RunProperties.NoAcceptAfterDeadLevel | traceTM_MJ.py:82-117 | If no level up to `n` accepts and level `n + 1` is empty, then no level at any depth accepts. |
| RunProperties.ExaminedLevels | traceTM_MJ.py:82-117 | A run's tree holds exactly the levels of the configuration tree, all non-empty. No level before the last accepts. Unless the bound was hit, the level after the last one is the last one's expansion. |
| RunProperties.AcceptedAtShallowestLevel | traceTM_MJ.py:82-100 | The run accepts iff some level within the bound holds an accepting configuration. It then reports the shallowest such level as its depth. |
| RunProperties.RejectedAtLastLevel | traceTM_MJ.py:110-120 | A rejecting run reports its last level as its depth, and the level after it is empty. |
| RunProperties.RejectedExaminedLevels | traceTM_MJ.py:93-100 | A rejecting run found no accepting configuration on any level of its tree. |
| RunProperties.RejectedNeverAccepts | traceTM_MJ.py:76-117 | A rejecting run means that the machine accepts on no branch at any depth, and every level after the reported depth is empty. |
| RunProperties.RejectedLevelIsAllRejecting | traceTM_MJ.py:102-114 | With a table whose entries all list a rule, every configuration on a rejecting run's last level is in the reject state. |
| RunProperties.DepthExceededExaminedEveryLevel | traceTM_MJ.py:84-88 | A run stopped by a non-negative bound reports depth `maxDepth` with `maxDepth + 2` levels. None of levels `0..maxDepth` accepts, and none of levels `0..maxDepth + 1` is empty. |
| RunProperties.NegativeBoundStopsAtStart | traceTM_MJ.py:70-120 | With a negative bound the run stops on the bound at level 0 before examining it: the tree is the start level alone, the count is 0 and the reported depth is -1, whatever the bound. |
| RunProperties.GoesOnPast | traceTM_MJ.py:82-117 | A run goes on past a level that is within the bound, holds no accepting configuration and has successors. |
| RunProperties.StopsAtLastLevelOnly | traceTM_MJ.py:82-117 | The run stops at its last level and at no earlier level: an earlier level is within the bound, does not accept, and has successors. |
| RunProperties.OutcomeAtFirstStop | traceTM_MJ.py:76-120 | With `n` the first stopping level: the bound flag is set iff `n` exceeds the bound, the run accepts iff `n` is within the bound and accepts, and it rejects iff `n` is within the bound and does not accept. The depth is `n`, or `n - 1` when the bound was hit. |
| RunProperties.RunIsDeterministic | traceTM_MJ.py:67-120 | Two summaries of runs with the same machine, input and bound are equal: the same flags, depth, count and tree. |
| APlusScenarios.StepFromStart | traceTM_MJ.py:39-57 | From the start on any input beginning with `a`, the successors are the right move into `q2` and the rejected left move off the edge, with its tapes unchanged. |
| APlusScenarios.StepOnBlankAfterA | traceTM_MJ.py:21-22 | After `a` the head reads the blank, and `q2` writes it and accepts. |
| APlusScenarios.LevelsOfA | traceTM_MJ.py:71-114 | The levels of the run on `a`. |
| APlusScenarios.AcceptsA | check_tests_MJ.py:6-8 | `a` with bound 5 is accepted at depth 2, after generating 3 configurations. |
| APlusScenarios.StepOverSecondA | traceTM_MJ.py:39-47 | `q2` moves right over the second `a`. |
| APlusScenarios.LevelsOfAA | traceTM_MJ.py:71-114 | The first three levels of the run on `aa`. |
| APlusScenarios.ExceedsBoundOnAA | check_tests_MJ.py:18-20 | `aa` with bound 1 stops on the bound with depth 1, after generating 3 configurations (level 2 generated but not examined). |
| APlusScenarios.LevelsOfB | traceTM_MJ.py:63-64 | On `b` there is no rule, so the only successor is the implicit reject, and level 2 is empty. |
| APlusScenarios.RejectsB | check_tests_MJ.py:12-14 | `b` with bound 5 is rejected at depth 1, with 1 configuration generated and the tree `[[("", q1, b)], [("", qrej, b)]]`. |

## Left out

- `process_csv` (`traceTM_MJ.py:143-187`) is not modelled, because reading and parsing the CSV file is I/O. The machine is taken as an already-built value. `WellFormed` states the one property of the parsed table that the proofs use: every entry lists a rule.
- The machine's `name`, `Q`, `sigma` and `gamma` are not modelled, because a run never reads them.
- `print_output`, the print call at the end of `process_input`, and `__main__` are not modelled, because they are console output and argument parsing. `ProcessInput` returns their data as a `Summary`.
- A rule's write symbol is a single character. The code writes the CSV field as a string (`traceTM_MJ.py:40-42`), and the model assumes that field is one symbol long.
- A rule's direction is `L` or `R`. The code moves left on any direction other than `R` (`traceTM_MJ.py:45-49`), so every such string is modelled as `L`.
- `check_MJ/a_plus.csv` is not part of this model. The scenarios use a hand-written machine for `a+`, so their depths and counts belong to that machine. The longer runs in `check_tests_MJ.py` (`aaaaaa` with bound 5, `aaaaaaaaaaaa` with bound 50, `aaaabaa`) are represented by `aa` with bound 1 for the bound case only.
