/**
  Machine definition, configurations and the one-step successor relation of a
  nondeterministic Turing machine whose tape has a hard left edge.
 */
module Stepper {

  type State = string

  /** Tape contents; the tape symbols are characters. */
  type Tape = seq<char>

  /** The symbol read from an empty right-hand tape. */
  const Blank: char := '_'

  datatype Dir = L | R

  /** One transition rule: the state to enter, the symbol to write under the head
      and the direction in which the head then moves. */
  datatype Rule = Rule(next: State, write: char, dir: Dir)

  /** For each state and read symbol, the rules in the order the machine description lists them. */
  type Table = map<State, map<char, seq<Rule>>>

  /** The machine as the simulator uses it (name and alphabets play no part in a run). */
  datatype Machine = Machine(start: State, accept: State, reject: State, delta: Table)

  /** A snapshot: the symbols left of the head, the control state, and the symbols
      from the head rightward. */
  datatype Config = Config(left: Tape, state: State, right: Tape)

  /** The symbol under the head: the first symbol of `right`, or the blank when `right` is empty. */
  function Read(right: Tape): char
  {
    if right == [] then Blank else right[0]
  }

  /** `right` without the cell under the head. */
  function Tail(right: Tape): Tape
  {
    if right == [] then [] else right[1..]
  }

  /** True iff the table holds an entry (possibly with no rules) for `state` and `sym`. */
  predicate HasEntry(m: Machine, state: State, sym: char)
  {
    state in m.delta && sym in m.delta[state]
  }

  /** The successor produced by one rule: write the rule's symbol under the head, then
      move the head. A left move off the left edge rejects the branch and drops the write. */
  function ApplyRule(m: Machine, c: Config, rule: Rule): Config
  {
    var written := if c.right == [] then [rule.write] else [rule.write] + c.right[1..];
    match rule.dir
    case R => Config(c.left + [written[0]], rule.next, written[1..])
    case L =>
      if |c.left| == 0 then Config(c.left, m.reject, c.right)
      else Config(c.left[..|c.left| - 1], rule.next, [c.left[|c.left| - 1]] + written)
  }

  /** What one rule does to a configuration. */
  lemma {:induction false} ApplyRuleMoves(m: Machine, c: Config, rule: Rule)
    // the boundary policy: nothing changes but the state, which becomes the reject state
    ensures var r := ApplyRule(m, c, rule);
      rule.dir == L && c.left == [] ==> r == Config(c.left, m.reject, c.right)
    // otherwise the whole tape is the old one with the head cell overwritten (a blank cell
    // is materialised), the head moves one cell, and the rule's state is entered
    ensures var r := ApplyRule(m, c, rule);
      !(rule.dir == L && c.left == []) ==>
        && r.state == rule.next
        && r.left + r.right == c.left + [rule.write] + Tail(c.right)
        && |r.left| == (if rule.dir == R then |c.left| + 1 else |c.left| - 1)
    ensures var r := ApplyRule(m, c, rule);
      rule.dir == R ==> r.left == c.left + [rule.write] && r.right == Tail(c.right)
    ensures var r := ApplyRule(m, c, rule);
      rule.dir == L && c.left != [] ==>
        r.left == c.left[..|c.left| - 1] && r.right == [c.left[|c.left| - 1], rule.write] + Tail(c.right)
    // tape length is kept, except that writing on an empty right-hand tape adds one cell
    ensures var r := ApplyRule(m, c, rule);
      |r.left| + |r.right| ==
        |c.left| + |c.right| + (if c.right == [] && !(rule.dir == L && c.left == []) then 1 else 0)
  {
  }

  /** The successors for a list of rules, one per rule, appended in rule order. */
  function Successors(m: Machine, c: Config, rules: seq<Rule>): seq<Config>
  {
    if rules == [] then []
    else Successors(m, c, rules[..|rules| - 1]) + [ApplyRule(m, c, rules[|rules| - 1])]
  }

  /** Successor `i` is the one produced by rule `i`. */
  lemma {:induction false} SuccessorsInRuleOrder(m: Machine, c: Config, rules: seq<Rule>)
    ensures |Successors(m, c, rules)| == |rules|
    ensures forall i :: 0 <= i < |rules| ==> Successors(m, c, rules)[i] == ApplyRule(m, c, rules[i])
    decreases |rules|
  {
    if rules != [] {
      var n := |rules| - 1;
      SuccessorsInRuleOrder(m, c, rules[..n]);
      assert forall i :: 0 <= i < n ==> rules[..n][i] == rules[i];
    }
  }

  /** All configurations reachable from `c` in one move. */
  function Step(m: Machine, c: Config): seq<Config>
  {
    var sym := Read(c.right);
    if HasEntry(m, c.state, sym) then Successors(m, c, m.delta[c.state][sym])
    else [Config(c.left, m.reject, c.right)]
  }

  /** The successors of a configuration: one per rule listed for its state and the symbol
      under the head, in rule order; or, when the table has no entry, the implicit reject. */
  lemma {:induction false} StepFollowsTable(m: Machine, c: Config)
    // the symbol consulted is the blank on an empty right-hand tape, the head cell otherwise
    ensures var r := Step(m, c);
      var sym := if c.right == [] then Blank else c.right[0];
      if c.state in m.delta && sym in m.delta[c.state] then
        var rules := m.delta[c.state][sym];
        |r| == |rules| && forall i :: 0 <= i < |rules| ==> r[i] == ApplyRule(m, c, rules[i])
      else
        // implicit reject: a single successor, tapes unchanged
        r == [Config(c.left, m.reject, c.right)]
  {
    var sym := Read(c.right);
    if HasEntry(m, c.state, sym) {
      SuccessorsInRuleOrder(m, c, m.delta[c.state][sym]);
    }
  }

  /** An empty right-hand tape reads like one holding a single blank: both configurations
      have successors in the same states and on the same left tapes, and their right tapes
      differ only where a rejecting successor keeps the unmaterialised blank. */
  lemma {:induction false} BlankReadsLikeEmpty(m: Machine, left: Tape, state: State)
    ensures var a := Step(m, Config(left, state, []));
      var b := Step(m, Config(left, state, [Blank]));
      && |a| == |b|
      && forall i :: 0 <= i < |a| ==>
        && a[i].left == b[i].left && a[i].state == b[i].state
        && (a[i].right == b[i].right || (a[i].right == [] && b[i].right == [Blank] && a[i].state == m.reject))
  {
    var a := Step(m, Config(left, state, []));
    var b := Step(m, Config(left, state, [Blank]));
    StepFollowsTable(m, Config(left, state, []));
    StepFollowsTable(m, Config(left, state, [Blank]));
    if HasEntry(m, state, Blank) {
      var rules := m.delta[state][Blank];
      forall i | 0 <= i < |a|
        ensures a[i].left == b[i].left && a[i].state == b[i].state
        ensures a[i].right == b[i].right || (a[i].right == [] && b[i].right == [Blank] && a[i].state == m.reject)
      {
        ApplyRuleMoves(m, Config(left, state, []), rules[i]);
        ApplyRuleMoves(m, Config(left, state, [Blank]), rules[i]);
      }
    }
  }

  /** With a table that lists at least one rule in each entry (as a machine description
      always does), every configuration has at least one successor. */
  lemma {:induction false} StepNeverEmpty(m: Machine, c: Config)
    requires WellFormed(m)
    ensures Step(m, c) != []
  {
  }

  /** Every entry of the table lists at least one rule. */
  predicate WellFormed(m: Machine)
  {
    forall q, s :: q in m.delta && s in m.delta[q] ==> m.delta[q][s] != []
  }
}
