/**
  The declarative workflow engine of `FSMModel`: a model class declares an ordered
  table of rules, and the engine looks steps up by position, filters them by
  (state, role), and lists the roles that may create an instance.
 */
module Fsm {
  import opened Wrappers

  /** One row of a model class's `fsm` table.
      `current == None` marks a creation rule (the instance does not exist yet);
      `next == None` means the flow is closed. */
  datatype Rule = Rule(current: Option<string>, role: string, next: Option<string>, fields: seq<string>)

  /** The ordered rule table of a model class. */
  type Table = seq<Rule>

  /** A model class deriving from `FSMModel`: its name, rule table and final state. */
  datatype ModelClass = ModelClass(name: string, fsm: Table, final: string)

  /** The `Step` record: a rule together with the index it was looked up by. */
  datatype Step = Step(index: int, current: Option<string>, role: string, next: Option<string>, fields: seq<string>)

  /** Python's `IndexError` from indexing the table out of range. */
  datatype LookupError = IndexError

  function StepOf(index: int, rule: Rule): Step
  {
    Step(index, rule.current, rule.role, rule.next, rule.fields)
  }

  /** The rule a step was built from. */
  function RuleOf(step: Step): Rule
  {
    Rule(step.current, step.role, step.next, step.fields)
  }

  /** `get_step_by_index`: Python indexing of the table, where a negative index
      counts from the end and anything else out of range raises. */
  function GetStepByIndex(fsm: Table, index: int): (r: Result<Step, LookupError>)
    ensures r.Ok? <==> -|fsm| <= index < |fsm|
    ensures r.Ok? ==> r.value.index == index && RuleOf(r.value) == fsm[index % |fsm|]
  {
    if 0 <= index < |fsm| then Ok(StepOf(index, fsm[index]))
    else if -|fsm| <= index < 0 then Ok(StepOf(index, fsm[|fsm| + index]))
    else Err(IndexError)
  }

  predicate Matches(rule: Rule, state: Option<string>, role: string)
  {
    rule.current == state && rule.role == role
  }

  /** `step` is the table's rule at the step's own index, and that rule matches (state, role). */
  predicate IsTableStep(fsm: Table, step: Step, state: Option<string>, role: string)
  {
    0 <= step.index < |fsm| && step == StepOf(step.index, fsm[step.index])
    && Matches(fsm[step.index], state, role)
  }

  predicate IndicesIncrease(steps: seq<Step>)
  {
    forall j, k :: 0 <= j < k < |steps| ==> steps[j].index < steps[k].index
  }

  /** The steps `get_steps` has collected after scanning the first `n` rules. */
  function StepsUpTo(fsm: Table, n: nat, state: Option<string>, role: string): (r: seq<Step>)
    requires n <= |fsm|
    ensures forall k :: 0 <= k < |r| ==> IsTableStep(fsm, r[k], state, role) && r[k].index < n
    ensures IndicesIncrease(r)
  {
    if n == 0 then []
    else
      StepsUpTo(fsm, n - 1, state, role)
      + (if Matches(fsm[n - 1], state, role) then [StepOf(n - 1, fsm[n - 1])] else [])
  }

  /** What `get_steps(state, role)` returns. */
  function Steps(fsm: Table, state: Option<string>, role: string): seq<Step>
  {
    StepsUpTo(fsm, |fsm|, state, role)
  }

  /** `get_steps`: scan the table in order and collect each rule that matches both
      the state and the role, as a step carrying its table index. */
  method GetSteps(fsm: Table, state: Option<string>, role: string) returns (steps: seq<Step>)
    ensures steps == Steps(fsm, state, role)
  {
    steps := [];
    for index := 0 to |fsm|
      invariant steps == StepsUpTo(fsm, index, state, role)
    {
      var rule := fsm[index];
      if rule.current == state && rule.role == role {
        steps := steps + [StepOf(index, rule)];
      }
    }
  }

  /** Every matching rule of the scanned prefix is among the collected steps. */
  lemma {:induction false} StepsUpToComplete(fsm: Table, n: nat, state: Option<string>, role: string, i: nat)
    requires i < n <= |fsm|
    requires Matches(fsm[i], state, role)
    ensures StepOf(i, fsm[i]) in StepsUpTo(fsm, n, state, role)
  {
    if i < n - 1 {
      StepsUpToComplete(fsm, n - 1, state, role, i);
    }
  }

  /** `get_steps` returns exactly the rules whose state AND role match, each at
      its own table index, in table order. */
  lemma StepsExact(fsm: Table, state: Option<string>, role: string)
    ensures forall s :: s in Steps(fsm, state, role) ==> IsTableStep(fsm, s, state, role)
    ensures forall i :: 0 <= i < |fsm| ==>
      (StepOf(i, fsm[i]) in Steps(fsm, state, role) <==> Matches(fsm[i], state, role))
    ensures IndicesIncrease(Steps(fsm, state, role))
  {
    forall i | 0 <= i < |fsm| && Matches(fsm[i], state, role)
      ensures StepOf(i, fsm[i]) in Steps(fsm, state, role)
    {
      StepsUpToComplete(fsm, |fsm|, state, role, i);
    }
  }

  /** A rule whose role differs from the asked role is never offered, even when
      its state matches. */
  lemma StepsOnlyForRole(fsm: Table, state: Option<string>, role: string, s: Step)
    requires s in Steps(fsm, state, role)
    ensures s.role == role && s.current == state
  {
  }

  /** Looking a returned step up again by its index gives the same step back. */
  lemma StepsRoundTrip(fsm: Table, state: Option<string>, role: string)
    ensures forall s :: s in Steps(fsm, state, role) ==> GetStepByIndex(fsm, s.index) == Ok(s)
  {
  }

  /** No match is an empty list, not a failure. */
  lemma StepsEmptyIff(fsm: Table, state: Option<string>, role: string)
    ensures Steps(fsm, state, role) == [] <==> forall i :: 0 <= i < |fsm| ==> !Matches(fsm[i], state, role)
  {
    StepsExact(fsm, state, role);
    if Steps(fsm, state, role) != [] {
      var s := Steps(fsm, state, role)[0];
      assert Matches(fsm[s.index], state, role);
    }
  }

  /** Two non-empty index-ordered sequences with the same steps start with the
      same step, and their tails hold the same steps. */
  lemma SameStepsSameHead(a: seq<Step>, b: seq<Step>)
    requires a != [] && b != []
    requires IndicesIncrease(a) && IndicesIncrease(b)
    requires forall s :: s in a <==> s in b
    ensures a[0] == b[0]
    ensures forall s :: s in a[1..] <==> s in b[1..]
  {
    assert a[0] in b;
    assert b[0] in a;
    var m :| 0 <= m < |b| && b[m] == a[0];
    var p :| 0 <= p < |a| && a[p] == b[0];
    assert a[0].index <= a[p].index;
    assert b[0].index <= b[m].index;
    assert a[0].index == b[0].index;
    assert m == 0;
    forall s | s in a[1..] ensures s in b[1..] {
      var q :| 1 <= q < |a| && a[q] == s;
      assert a[0].index < s.index;
      assert s in b;
    }
    forall s | s in b[1..] ensures s in a[1..] {
      var q :| 1 <= q < |b| && b[q] == s;
      assert b[0].index < s.index;
      assert s in a;
    }
  }

  /** Two sequences ordered by strictly increasing index that hold the same
      steps are the same sequence. */
  lemma {:induction false} SameStepsSameOrder(a: seq<Step>, b: seq<Step>)
    requires IndicesIncrease(a) && IndicesIncrease(b)
    requires forall s :: s in a <==> s in b
    ensures a == b
  {
    if a != [] { assert a[0] in b; }
    if b != [] { assert b[0] in a; }
    if a != [] {
      SameStepsSameHead(a, b);
      SameStepsSameOrder(a[1..], b[1..]);
      assert a == [a[0]] + a[1..];
      assert b == [b[0]] + b[1..];
    }
  }

  /** Any list of table steps in index order that holds exactly the matching
      rules is what `get_steps` returns: an independent characterisation. */
  lemma StepsCharacterised(fsm: Table, state: Option<string>, role: string, xs: seq<Step>)
    requires IndicesIncrease(xs)
    requires forall s :: s in xs ==> IsTableStep(fsm, s, state, role)
    requires forall i :: 0 <= i < |fsm| && Matches(fsm[i], state, role) ==> StepOf(i, fsm[i]) in xs
    ensures xs == Steps(fsm, state, role)
  {
    StepsExact(fsm, state, role);
    var ys := Steps(fsm, state, role);
    forall s ensures s in xs <==> s in ys {
      if s in xs {
        assert StepOf(s.index, fsm[s.index]) in ys;
      }
      if s in ys {
        assert StepOf(s.index, fsm[s.index]) in xs;
      }
    }
    SameStepsSameOrder(xs, ys);
  }

  /** The roles `get_create_roles` has collected after scanning the first `n`
      rules; each role occurs once per creation rule it holds. */
  function CreateRolesUpTo(fsm: Table, n: nat): (r: seq<string>)
    requires n <= |fsm|
    ensures forall role :: multiset(r)[role] == |StepsUpTo(fsm, n, None, role)|
  {
    if n == 0 then []
    else
      CreateRolesUpTo(fsm, n - 1)
      + (if fsm[n - 1].current == None then [fsm[n - 1].role] else [])
  }

  /** What `get_create_roles()` returns. */
  function CreateRoles(fsm: Table): seq<string>
  {
    CreateRolesUpTo(fsm, |fsm|)
  }

  /** `get_create_roles`: the role of every creation rule, in table order. */
  method GetCreateRoles(fsm: Table) returns (roles: seq<string>)
    ensures roles == CreateRoles(fsm)
  {
    roles := [];
    for index := 0 to |fsm|
      invariant roles == CreateRolesUpTo(fsm, index)
    {
      var rule := fsm[index];
      if rule.current == None {
        roles := roles + [rule.role];
      }
    }
  }

  /** `idx` lists, in increasing order, exactly the creation rules among the
      first `n` rules, and `roles` holds their roles in that order. */
  ghost predicate ListsCreationRules(fsm: Table, n: nat, idx: seq<nat>, roles: seq<string>)
    requires n <= |fsm|
  {
    && |idx| == |roles|
    && (forall k :: 0 <= k < |idx| ==> idx[k] < n && fsm[idx[k]].current == None && roles[k] == fsm[idx[k]].role)
    && (forall j, k :: 0 <= j < k < |idx| ==> idx[j] < idx[k])
    && (forall i :: 0 <= i < n && fsm[i].current == None ==> i in idx)
  }

  /** Scanning one more rule extends the listing by that rule if it is a creation rule. */
  lemma ListsCreationRulesStep(fsm: Table, n: nat, idx: seq<nat>, roles: seq<string>)
    requires n < |fsm|
    requires ListsCreationRules(fsm, n, idx, roles)
    ensures fsm[n].current == None ==> ListsCreationRules(fsm, n + 1, idx + [n], roles + [fsm[n].role])
    ensures fsm[n].current != None ==> ListsCreationRules(fsm, n + 1, idx, roles)
  {
    if fsm[n].current == None {
      var idx' := idx + [n];
      forall i | 0 <= i < n + 1 && fsm[i].current == None ensures i in idx' {
        if i < n {
          assert i in idx;
        } else {
          assert idx'[|idx|] == i;
        }
      }
    }
  }

  /** The indices of the creation rules behind the first `n` creation roles. */
  lemma {:induction false} CreationListing(fsm: Table, n: nat) returns (idx: seq<nat>)
    requires n <= |fsm|
    ensures ListsCreationRules(fsm, n, idx, CreateRolesUpTo(fsm, n))
  {
    if n == 0 {
      idx := [];
    } else {
      var prev := CreationListing(fsm, n - 1);
      var roles := CreateRolesUpTo(fsm, n - 1);
      ListsCreationRulesStep(fsm, n - 1, prev, roles);
      if fsm[n - 1].current == None {
        idx := prev + [n - 1];
        assert CreateRolesUpTo(fsm, n) == roles + [fsm[n - 1].role];
      } else {
        idx := prev;
        assert CreateRolesUpTo(fsm, n) == roles + [];
      }
    }
  }

  /** The creation roles come in table order: one per creation rule, ordered by
      the rules' indices. */
  lemma CreateRolesOrdered(fsm: Table)
    ensures exists idx: seq<nat> :: ListsCreationRules(fsm, |fsm|, idx, CreateRoles(fsm))
  {
    var idx := CreationListing(fsm, |fsm|);
    assert ListsCreationRules(fsm, |fsm|, idx, CreateRoles(fsm));
  }

  /** Dropping the last scanned rule from a listing when it is a creation rule:
      it is the listing's last entry. */
  lemma ListsCreationRulesDropLast(fsm: Table, n: nat, idx: seq<nat>, roles: seq<string>)
    requires 0 < n <= |fsm| && fsm[n - 1].current == None
    requires ListsCreationRules(fsm, n, idx, roles)
    ensures idx != []
    ensures roles == roles[..|idx| - 1] + [fsm[n - 1].role]
    ensures ListsCreationRules(fsm, n - 1, idx[..|idx| - 1], roles[..|idx| - 1])
  {
    assert n - 1 in idx;
    LastIsLargest(idx, n);
    ListsCreationRulesPrefix(fsm, n, idx, roles);
    var m := |idx| - 1;
    assert roles == roles[..m] + [roles[m]];
  }

  /** A listing whose last entry is rule `n - 1` lists the first `n - 1` rules
      once that entry is dropped. */
  lemma ListsCreationRulesPrefix(fsm: Table, n: nat, idx: seq<nat>, roles: seq<string>)
    requires 0 < n <= |fsm|
    requires ListsCreationRules(fsm, n, idx, roles)
    requires idx != [] && idx[|idx| - 1] == n - 1
    ensures ListsCreationRules(fsm, n - 1, idx[..|idx| - 1], roles[..|idx| - 1])
  {
    var m := |idx| - 1;
    var idx', roles' := idx[..m], roles[..m];
    forall k | 0 <= k < m
      ensures idx'[k] < n - 1 && fsm[idx'[k]].current == None && roles'[k] == fsm[idx'[k]].role
    {
      assert idx[k] < idx[m];
    }
    forall j, k | 0 <= j < k < m ensures idx'[j] < idx'[k] {
      assert idx[j] < idx[k];
    }
    forall i | 0 <= i < n - 1 && fsm[i].current == None ensures i in idx' {
      var p :| 0 <= p < |idx| && idx[p] == i;
      assert idx'[p] == i;
    }
  }

  /** In a strictly increasing sequence below `n` that contains `n - 1`, the
      last element is `n - 1`. */
  lemma LastIsLargest(idx: seq<nat>, n: nat)
    requires forall k :: 0 <= k < |idx| ==> idx[k] < n
    requires forall j, k :: 0 <= j < k < |idx| ==> idx[j] < idx[k]
    requires n > 0 && n - 1 in idx
    ensures idx[|idx| - 1] == n - 1
  {
    var k :| 0 <= k < |idx| && idx[k] == n - 1;
    assert idx[k] <= idx[|idx| - 1];
  }

  /** Dropping the last scanned rule from a listing when it is not a creation
      rule: the listing stays as it is. */
  lemma ListsCreationRulesDropOther(fsm: Table, n: nat, idx: seq<nat>, roles: seq<string>)
    requires 0 < n <= |fsm| && fsm[n - 1].current != None
    requires ListsCreationRules(fsm, n, idx, roles)
    ensures ListsCreationRules(fsm, n - 1, idx, roles)
  {
    forall k | 0 <= k < |idx| ensures idx[k] < n - 1 {
      assert idx[k] != n - 1;
    }
  }

  /** A strictly increasing sequence of naturals below `n` has at most `n` elements. */
  lemma {:induction false} IncreasingBelowIsShort(idx: seq<nat>, n: nat)
    requires forall k :: 0 <= k < |idx| ==> idx[k] < n
    requires forall j, k :: 0 <= j < k < |idx| ==> idx[j] < idx[k]
    ensures |idx| <= n
  {
    if idx != [] {
      var m := |idx| - 1;
      var prefix := idx[..m];
      forall k | 0 <= k < m ensures prefix[k] < idx[m] {
        assert idx[k] < idx[m];
      }
      forall j, k | 0 <= j < k < m ensures prefix[j] < prefix[k] {
        assert idx[j] < idx[k];
      }
      IncreasingBelowIsShort(prefix, idx[m]);
    }
  }

  /** Any list of the creation rules' roles in index order is what
      `get_create_roles` builds: the order is the table's and nothing else. */
  lemma {:induction false} CreateRolesCharacterised(fsm: Table, n: nat, idx: seq<nat>, roles: seq<string>)
    requires n <= |fsm|
    requires ListsCreationRules(fsm, n, idx, roles)
    ensures roles == CreateRolesUpTo(fsm, n)
  {
    if n == 0 {
      IncreasingBelowIsShort(idx, 0);
    } else if fsm[n - 1].current == None {
      ListsCreationRulesDropLast(fsm, n, idx, roles);
      var m := |idx| - 1;
      CreateRolesCharacterised(fsm, n - 1, idx[..m], roles[..m]);
    } else {
      ListsCreationRulesDropOther(fsm, n, idx, roles);
      CreateRolesCharacterised(fsm, n - 1, idx, roles);
    }
  }

  /** A role may create an instance iff it holds some creation rule, iff a
      step is offered to it from the "not yet created" state. */
  lemma CreateRolesMembership(fsm: Table, role: string)
    ensures role in CreateRoles(fsm) <==> Steps(fsm, None, role) != []
    ensures role in CreateRoles(fsm) <==>
      exists i :: 0 <= i < |fsm| && fsm[i].current == None && fsm[i].role == role
  {
    assert role in CreateRoles(fsm) <==> multiset(CreateRoles(fsm))[role] > 0;
    StepsEmptyIff(fsm, None, role);
  }

  /** A table without a creation rule yields an empty list, not an error. */
  lemma CreateRolesEmptyIff(fsm: Table)
    ensures CreateRoles(fsm) == [] <==> forall i :: 0 <= i < |fsm| ==> fsm[i].current != None
  {
    if CreateRoles(fsm) != [] {
      var role := CreateRoles(fsm)[0];
      CreateRolesMembership(fsm, role);
    } else {
      forall i | 0 <= i < |fsm| ensures fsm[i].current != None {
        if fsm[i].current == None {
          CreateRolesMembership(fsm, fsm[i].role);
        }
      }
    }
  }

  /** No rule leaves the final state, so no step is offered there to anyone. */
  lemma FinalStateHasNoSteps(m: ModelClass, role: string)
    requires forall i :: 0 <= i < |m.fsm| ==> m.fsm[i].current != Some(m.final)
    ensures Steps(m.fsm, Some(m.final), role) == []
  {
    StepsEmptyIff(m.fsm, Some(m.final), role);
  }

  /** What the model form of a step writes: the posted values of the step's fields, and nothing else. */
  function FormFields(step: Step, data: map<string, string>): (w: map<string, string>)
    ensures w.Keys <= data.Keys
    ensures forall f :: f in w ==> f in step.fields && w[f] == data[f]
    ensures (forall f :: f in step.fields ==> f in data) ==> w.Keys == set f | f in step.fields
  {
    map f | f in data && f in step.fields :: data[f]
  }

  /** An object of an `FSMModel` subclass: its primary key (`None` until first
      saved), its `state` field and its other fields by name. */
  class Instance {
    const fsm: Table
    var pk: Option<nat>
    var state: Option<string>
    var values: map<string, string>

    constructor (fsm: Table, pk: Option<nat>, state: Option<string>, values: map<string, string>)
      ensures this.fsm == fsm && this.pk == pk && this.state == state && this.values == values
    {
      this.fsm := fsm;
      this.pk := pk;
      this.state := state;
      this.values := values;
    }

    /** `get_current_steps(role)`: the steps offered to `role` from this
        instance's state. */
    method GetCurrentSteps(role: string) returns (steps: seq<Step>)
      ensures steps == Steps(fsm, state, role)
    {
      steps := GetSteps(fsm, state, role);
    }

    /** The write of a posted step: the form writes the step's fields from the
        posted data, then `state` becomes the step's next state. */
    method Apply(step: Step, data: map<string, string>)
      modifies this
      ensures state == step.next
      ensures values == old(values) + FormFields(step, data)
      ensures pk == old(pk)
    {
      values := values + FormFields(step, data);
      state := step.next;
    }
  }
}
