/**
  The decision logic of the workflow views: the home page's "create" and
  "work on" entries, the step forms offered for a model or an instance, and
  the handler that applies a posted step.
 */
module Views {
  import opened Wrappers
  import opened Fsm
  import opened Orm

  /** How a request ends when the source raises. */
  datatype RequestError =
    | BadStepIndex   // `IndexError` from `get_step_by_index`
    | InvalidForm    // the `assert form.is_valid()` fails
    | DoesNotExist   // `objects.get(pk=...)` finds no row

  /** The form of a posted step is valid when every field of the step was
      supplied (the framework's per-field validation is not modelled). */
  predicate FormValid(step: Step, data: map<string, string>)
  {
    forall f :: f in step.fields ==> f in data
  }

  /** A form is valid exactly when it writes every field of its step. */
  lemma FormValidIff(step: Step, data: map<string, string>)
    ensures FormValid(step, data) <==> FormFields(step, data).Keys == set f | f in step.fields
  {
    var w := FormFields(step, data);
    if w.Keys == set f | f in step.fields {
      forall f | f in step.fields ensures f in data {
        assert f in w.Keys;
      }
    }
  }

  // ---------------------------------------------------------------------
  // Posting a step
  // ---------------------------------------------------------------------

  /** The post handler as the source has it: the step is looked up, the form is
      bound to the posted data only, so its object is a new one; it gets the
      step's fields and next state and is inserted. The `pk` is not used. */
  function PostAsWrittenResult(db: Db, fsm: Table, stepIndex: int, pk: Option<nat>, data: map<string, string>)
    : (out: (Result<nat, RequestError>, Db))
    requires DbValid(db)
    ensures DbValid(out.1)
  {
    match GetStepByIndex(fsm, stepIndex)
    case Err(_) => (Err(BadStepIndex), db)
    case Ok(step) =>
      if !FormValid(step, data) then (Err(InvalidForm), db)
      else
        var saved := Saved(db, None, Record(step.next, map[] + FormFields(step, data)));
        (Ok(saved.0), saved.1)
  }

  /** The post handler with the form bound to the instance named by `pk`: a
      creation (`pk == None`) inserts, an update writes that instance's row. */
  function PostResult(db: Db, fsm: Table, stepIndex: int, pk: Option<nat>, data: map<string, string>)
    : (out: (Result<nat, RequestError>, Db))
    requires DbValid(db)
    ensures DbValid(out.1)
  {
    match GetStepByIndex(fsm, stepIndex)
    case Err(_) => (Err(BadStepIndex), db)
    case Ok(step) =>
      if pk.Some? && pk.value !in db.rows then (Err(DoesNotExist), db)
      else if !FormValid(step, data) then (Err(InvalidForm), db)
      else
        var base := if pk.Some? then db.rows[pk.value].values else map[];
        var saved := Saved(db, pk, Record(step.next, base + FormFields(step, data)));
        (Ok(saved.0), saved.1)
  }

  /** `CreateFSMModel.post` as written. */
  method PostAsWritten(store: Store, stepIndex: int, pk: Option<nat>, data: map<string, string>)
    returns (r: Result<nat, RequestError>)
    requires store.Valid()
    modifies store
    ensures store.Valid()
    ensures (r, store.db) == PostAsWrittenResult(old(store.db), store.model.fsm, stepIndex, pk, data)
  {
    var lookup := GetStepByIndex(store.model.fsm, stepIndex);
    if lookup.Err? {
      return Err(BadStepIndex);
    }
    var step := lookup.value;
    if !FormValid(step, data) {
      return Err(InvalidForm);
    }
    var obj := new Instance(store.model.fsm, None, None, map[]);
    obj.Apply(step, data);
    var k := store.Save(obj);
    r := Ok(k);
  }

  /** `CreateFSMModel.post` with the posted form bound to the instance `pk` names. */
  method Post(store: Store, stepIndex: int, pk: Option<nat>, data: map<string, string>)
    returns (r: Result<nat, RequestError>)
    requires store.Valid()
    modifies store
    ensures store.Valid()
    ensures (r, store.db) == PostResult(old(store.db), store.model.fsm, stepIndex, pk, data)
  {
    var lookup := GetStepByIndex(store.model.fsm, stepIndex);
    if lookup.Err? {
      return Err(BadStepIndex);
    }
    var step := lookup.value;
    var obj: Instance;
    if pk.None? {
      obj := new Instance(store.model.fsm, None, None, map[]);
    } else {
      var found := store.Get(pk.value);
      if found.None? {
        return Err(DoesNotExist);
      }
      obj := found.value;
    }
    if !FormValid(step, data) {
      return Err(InvalidForm);
    }
    obj.Apply(step, data);
    var k := store.Save(obj);
    r := Ok(k);
  }

  /** A post fails exactly when the index is out of range, the named instance
      is missing, or a field of the step was not supplied; a failed post
      changes nothing. The instance's state and the poster's role are never
      consulted. */
  lemma PostOutcome(db: Db, fsm: Table, stepIndex: int, pk: Option<nat>, data: map<string, string>)
    requires DbValid(db)
    ensures var out := PostResult(db, fsm, stepIndex, pk, data);
      && (out.0 == Err(BadStepIndex) <==> !(-|fsm| <= stepIndex < |fsm|))
      && (out.0 == Err(DoesNotExist) <==>
            -|fsm| <= stepIndex < |fsm| && pk.Some? && pk.value !in db.rows)
      && (out.0 == Err(InvalidForm) <==>
            -|fsm| <= stepIndex < |fsm| && (pk.Some? ==> pk.value in db.rows)
            && exists f :: f in fsm[stepIndex % |fsm|].fields && f !in data)
      && (out.0.Err? ==> out.1 == db)
  {
  }

  /** A successful post leaves the instance in the step's next state, writes
      the step's fields from the posted data, keeps every other field of an
      updated instance and touches no other row. */
  lemma PostEffect(db: Db, fsm: Table, stepIndex: int, pk: Option<nat>, data: map<string, string>)
    requires DbValid(db)
    requires PostResult(db, fsm, stepIndex, pk, data).0.Ok?
    ensures var out := PostResult(db, fsm, stepIndex, pk, data);
      var step := GetStepByIndex(fsm, stepIndex).value;
      var k := out.0.value;
      && (pk.Some? ==> k == pk.value)
      && (pk.None? ==> k !in db.rows)
      && k in out.1.rows
      && out.1.rows[k].state == step.next
      && (forall f :: f in step.fields ==> f in out.1.rows[k].values && out.1.rows[k].values[f] == data[f])
      && (forall f :: f !in step.fields && pk.Some? ==>
            (f in out.1.rows[k].values <==> f in db.rows[k].values)
            && (f in db.rows[k].values ==> out.1.rows[k].values[f] == db.rows[k].values[f]))
      && (forall f :: f !in step.fields && pk.None? ==> f !in out.1.rows[k].values)
      && (forall j :: j != k ==> (j in out.1.rows <==> j in db.rows))
      && (forall j :: j != k && j in db.rows ==> out.1.rows[j] == db.rows[j])
  {
  }

  /** As written, posting a step for an existing instance never advances that
      instance: its row is left as it was and a new row holding only the
      step's fields is inserted under another key. */
  lemma PostAsWrittenIgnoresPk(db: Db, fsm: Table, stepIndex: int, k: nat, data: map<string, string>)
    requires DbValid(db)
    requires k in db.rows
    requires PostAsWrittenResult(db, fsm, stepIndex, Some(k), data).0.Ok?
    ensures var out := PostAsWrittenResult(db, fsm, stepIndex, Some(k), data);
      var step := GetStepByIndex(fsm, stepIndex).value;
      && out.0.value != k
      && out.0.value !in db.rows
      && out.1.rows[k] == db.rows[k]
      && out.1.rows[out.0.value].state == step.next
      && out.1.rows[out.0.value].values.Keys == set f | f in step.fields
      && (forall j :: j != out.0.value ==> (j in out.1.rows <==> j in db.rows))
      && (forall j :: j != out.0.value && j in db.rows ==> out.1.rows[j] == db.rows[j])
  {
  }

  /** As written, the handler's outcome does not depend on `pk` at all: every
      post behaves as a creation, and `DoesNotExist` never arises. */
  lemma PostAsWrittenNeverReadsPk(db: Db, fsm: Table, stepIndex: int, pk: Option<nat>, data: map<string, string>)
    requires DbValid(db)
    ensures PostAsWrittenResult(db, fsm, stepIndex, pk, data) == PostAsWrittenResult(db, fsm, stepIndex, None, data)
    ensures PostAsWrittenResult(db, fsm, stepIndex, pk, data).0 != Err(DoesNotExist)
  {
  }

  /** On creation (no key) the handler as written already does what is
      intended: it differs from the corrected handler only on updates. */
  lemma PostAsWrittenCreatesAsIntended(db: Db, fsm: Table, stepIndex: int, data: map<string, string>)
    requires DbValid(db)
    ensures PostAsWrittenResult(db, fsm, stepIndex, None, data) == PostResult(db, fsm, stepIndex, None, data)
  {
  }

  // ---------------------------------------------------------------------
  // Offering the step forms
  // ---------------------------------------------------------------------

  /** Where a step form posts to: model name, instance key (none on creation)
      and the step's table index. */
  datatype Target = Target(model: string, pk: Option<nat>, stepIndex: int)

  /** An empty form over the step's fields, with its post target. */
  datatype Form = Form(fields: seq<string>, target: Target)

  /** The page `CreateFSMModel.get` renders: the creation page, or the update
      page showing the instance read-only. */
  datatype Page = CreatePage(forms: seq<Form>) | UpdatePage(shown: Record, forms: seq<Form>)

  /** The forms correspond one to one, in order, to the steps. */
  predicate FormsFollowSteps(forms: seq<Form>, model: string, pk: Option<nat>, steps: seq<Step>)
  {
    |forms| == |steps|
    && forall k :: 0 <= k < |forms| ==>
      forms[k].fields == steps[k].fields && forms[k].target == Target(model, pk, steps[k].index)
  }

  /** `CreateFSMModel.get`: the steps from the "not created" state when no key
      is given, from the instance's state otherwise, each as a form. */
  method FlowGet(store: Store, pk: Option<nat>, role: string) returns (r: Result<Page, RequestError>)
    ensures r.Err? <==> pk.Some? && pk.value !in store.db.rows
    ensures r.Err? ==> r.error == DoesNotExist
    ensures r.Ok? && pk.None? ==>
      r.value.CreatePage?
      && FormsFollowSteps(r.value.forms, store.model.name, None, Steps(store.model.fsm, None, role))
    ensures r.Ok? && pk.Some? ==>
      r.value.UpdatePage? && r.value.shown == store.db.rows[pk.value]
      && FormsFollowSteps(r.value.forms, store.model.name, pk,
                          Steps(store.model.fsm, store.db.rows[pk.value].state, role))
  {
    var currentState: Option<string>;
    var shown: Record;
    if pk.None? {
      currentState := None;
    } else {
      var found := store.Get(pk.value);
      if found.None? {
        return Err(DoesNotExist);
      }
      currentState := found.value.state;
      shown := Record(found.value.state, found.value.values);
    }
    var steps := GetSteps(store.model.fsm, currentState, role);
    var forms := [];
    for k := 0 to |steps|
      invariant FormsFollowSteps(forms, store.model.name, pk, steps[..k])
    {
      var step := steps[k];
      forms := forms + [Form(step.fields, Target(store.model.name, pk, step.index))];
    }
    assert steps[..|steps|] == steps;
    if pk.None? {
      r := Ok(CreatePage(forms));
    } else {
      r := Ok(UpdatePage(shown, forms));
    }
  }

  // ---------------------------------------------------------------------
  // The home page
  // ---------------------------------------------------------------------

  /** An entry of the home page: create an instance of a model, or work on an
      instance (model, key, state). */
  datatype Link = CreateLink(model: string) | WorkLink(model: string, pk: nat, state: Option<string>)

  /** The "create" entries built from the first `n` model classes. */
  function CreateLinksUpTo(models: seq<ModelClass>, n: nat, role: string): (r: seq<Link>)
    requires n <= |models|
    ensures |r| <= n
    ensures forall l :: l in r ==>
      exists j :: 0 <= j < n && l == CreateLink(models[j].name) && role in CreateRoles(models[j].fsm)
  {
    if n == 0 then []
    else
      CreateLinksUpTo(models, n - 1, role)
      + (if role in CreateRoles(models[n - 1].fsm) then [CreateLink(models[n - 1].name)] else [])
  }

  /** An instance is listed for a role when it is not in the final state and
      some step is offered to the role from its state. */
  predicate IsOpen(model: ModelClass, rec: Record, role: string)
  {
    rec.state != Some(model.final) && Steps(model.fsm, rec.state, role) != []
  }

  /** The "work on" entries for one model built from the first `n` rows of its
      query result, each row a (key, record) pair. */
  function WorkLinksUpTo(model: ModelClass, rows: seq<(nat, Record)>, n: nat, role: string): (r: seq<Link>)
    requires n <= |rows|
    ensures |r| <= n
    ensures forall l :: l in r ==>
      exists k :: 0 <= k < n && l == WorkLink(model.name, rows[k].0, rows[k].1.state) && IsOpen(model, rows[k].1, role)
  {
    if n == 0 then []
    else
      WorkLinksUpTo(model, rows, n - 1, role)
      + (if IsOpen(model, rows[n - 1].1, role)
         then [WorkLink(model.name, rows[n - 1].0, rows[n - 1].1.state)] else [])
  }

  /** The "work on" entries of the first `n` model classes, model by model. */
  function OpenLinksUpTo(models: seq<ModelClass>, tables: seq<seq<(nat, Record)>>, n: nat, role: string)
    : (r: seq<Link>)
    requires |tables| == |models| && n <= |models|
    ensures forall l :: l in r ==>
      exists j :: 0 <= j < n && l in WorkLinksUpTo(models[j], tables[j], |tables[j]|, role)
    ensures forall j, l :: 0 <= j < n && l in WorkLinksUpTo(models[j], tables[j], |tables[j]|, role) ==> l in r
  {
    if n == 0 then []
    else OpenLinksUpTo(models, tables, n - 1, role) + WorkLinksUpTo(models[n - 1], tables[n - 1], |tables[n - 1]|, role)
  }

  /** `HomePage.get`: a "create" entry for every model the role may create, and
      a "work on" entry for every open instance; `tables[j]` is the rows of
      `models[j]` in query order. */
  method HomeGet(models: seq<ModelClass>, tables: seq<seq<(nat, Record)>>, role: string)
    returns (create: seq<Link>, open: seq<Link>)
    requires |tables| == |models|
    ensures create == CreateLinksUpTo(models, |models|, role)
    ensures open == OpenLinksUpTo(models, tables, |models|, role)
  {
    create := [];
    for j := 0 to |models|
      invariant create == CreateLinksUpTo(models, j, role)
    {
      var roles := GetCreateRoles(models[j].fsm);
      if role in roles {
        create := create + [CreateLink(models[j].name)];
      }
    }
    open := [];
    for j := 0 to |models|
      invariant open == OpenLinksUpTo(models, tables, j, role)
    {
      var model := models[j];
      var rows := tables[j];
      ghost var before := open;
      for k := 0 to |rows|
        invariant open == before + WorkLinksUpTo(model, rows, k, role)
      {
        var (pk, rec) := rows[k];
        if rec.state != Some(model.final) {
          var instance := new Instance(model.fsm, Some(pk), rec.state, rec.values);
          var current := instance.GetCurrentSteps(role);
          if current != [] {
            open := open + [WorkLink(model.name, pk, rec.state)];
          }
        }
      }
    }
  }

  /** Every model class the role may create gets a "create" entry; with distinct
      model names, a model's entry is there iff the role is among its creation
      roles. */
  lemma {:induction false} CreateLinkOffered(models: seq<ModelClass>, n: nat, role: string, j: nat)
    requires j < n <= |models|
    ensures role in CreateRoles(models[j].fsm) ==> CreateLink(models[j].name) in CreateLinksUpTo(models, n, role)
    ensures (forall i, i' :: 0 <= i < i' < |models| ==> models[i].name != models[i'].name) ==>
      (CreateLink(models[j].name) in CreateLinksUpTo(models, n, role) <==> role in CreateRoles(models[j].fsm))
  {
    if j < n - 1 {
      CreateLinkOffered(models, n - 1, role, j);
    }
  }

  /** Every open row of a model gets a "work on" entry; with distinct keys, a
      row's entry is there iff the row is open for the role. */
  lemma {:induction false} WorkLinkListed(model: ModelClass, rows: seq<(nat, Record)>, n: nat, role: string, k: nat)
    requires k < n <= |rows|
    ensures IsOpen(model, rows[k].1, role) ==>
      WorkLink(model.name, rows[k].0, rows[k].1.state) in WorkLinksUpTo(model, rows, n, role)
    ensures (forall i, i' :: 0 <= i < i' < |rows| ==> rows[i].0 != rows[i'].0) ==>
      (WorkLink(model.name, rows[k].0, rows[k].1.state) in WorkLinksUpTo(model, rows, n, role)
       <==> IsOpen(model, rows[k].1, role))
  {
    if k < n - 1 {
      WorkLinkListed(model, rows, n - 1, role, k);
    }
  }

  /** Every open row of every model reaches the home page's "work on" list;
      with distinct model names and distinct keys within the row's model, a
      row is listed iff it is open. */
  lemma OpenRowListed(models: seq<ModelClass>, tables: seq<seq<(nat, Record)>>, role: string, j: nat, k: nat)
    requires |tables| == |models| && j < |models| && k < |tables[j]|
    ensures IsOpen(models[j], tables[j][k].1, role) ==>
      WorkLink(models[j].name, tables[j][k].0, tables[j][k].1.state) in OpenLinksUpTo(models, tables, |models|, role)
    ensures
      (forall i, i' :: 0 <= i < i' < |models| ==> models[i].name != models[i'].name) &&
      (forall i, i' :: 0 <= i < i' < |tables[j]| ==> tables[j][i].0 != tables[j][i'].0) ==>
      (WorkLink(models[j].name, tables[j][k].0, tables[j][k].1.state) in OpenLinksUpTo(models, tables, |models|, role)
       <==> IsOpen(models[j], tables[j][k].1, role))
  {
    var l := WorkLink(models[j].name, tables[j][k].0, tables[j][k].1.state);
    WorkLinkListed(models[j], tables[j], |tables[j]|, role, k);
    if (forall i, i' :: 0 <= i < i' < |models| ==> models[i].name != models[i'].name)
      && l in OpenLinksUpTo(models, tables, |models|, role)
    {
      var j' :| 0 <= j' < |models| && l in WorkLinksUpTo(models[j'], tables[j'], |tables[j']|, role);
      assert models[j'].name == models[j].name;
      assert j' == j;
    }
  }

  /** An instance in its model's final state is never listed, whatever the role. */
  lemma FinalNeverListed(models: seq<ModelClass>, tables: seq<seq<(nat, Record)>>, role: string, l: Link)
    requires |tables| == |models|
    requires l in OpenLinksUpTo(models, tables, |models|, role)
    ensures l.WorkLink?
    ensures exists j :: 0 <= j < |models| && l.model == models[j].name && l.state != Some(models[j].final)
  {
  }
}
