# django-flow workflow engine, in Dafny

This project models the table-driven workflow engine of django-flow and the
views that drive it.

A model class deriving from `FSMModel` declares `fsm`, an ordered table of
rules. Each rule is a 4-tuple: the current state (`None` means "not yet
created"), the responsible role, the next state, and the fields that may be
edited. The class also declares `fsm_final_state`. The engine does three
things:

- it looks a step up by its table index (`get_step_by_index`);
- it filters the table by (state, role) into `Step` records that keep their
  index (`get_steps`, and `get_current_steps` on an instance);
- it lists the roles allowed to create an instance (`get_create_roles`).

The views use the engine in three places:

- the home page offers "create" entries and "work on" entries for open
  instances;
- the flow page offers one form per step;
- the post handler applies a step. It writes the step's fields and sets
  `state` to the step's next state.

`Income` is the one concrete workflow: six rules over five states, with the
roles `organizer` and `admin`.

Files and modules:

- `wrappers.dfy`, module `Wrappers`: `Option` (Python's `None`) and `Result`
  (raised exceptions).
- `fsm.dfy`, module `Fsm`: rules, steps, the engine functions, and the
  `Instance` class (an object of an `FSMModel` subclass: `pk`, `state` and its
  other fields).
- `orm.dfy`, module `Orm`: the rows of one model class in memory.
  `objects.get` and `save()` keep Django's semantics: an object without a key
  is inserted, and an object with a key writes the row under that key.
- `views.dfy`, module `Views`: the post handler, both as written and
  corrected, plus the flow page and the home page.
- `income.dfy`, module `Income`: the `Income` table and its properties.
- `scenario.dfy`, module `IncomeFlow`: one income walked through every state.

Loop-built lists are modelled twice. A recursive function over the first `n`
items gives the specification. A method with the source's loop is proved
equal to that function.

The model follows the code, which differs from a set-based or strictly
validating reading:

- `get_create_roles` returns a list, not a set. A role appears once per
  creation rule it holds (`Fsm.CreateRolesUpTo`).
- `get_step_by_index` is plain Python indexing. A negative index from
  `-len(fsm)` to `-1` counts from the end and keeps its negative value as
  `index`. Only other out-of-range indices fail, with `IndexError`.
- The post handler does not check that the step's state and role match the
  instance's state and the user's role. The model does not check them either
  (`Views.PostOutcome`).
- The post handler binds the form to the posted data only. It never loads the
  instance named by `pk` (see Findings).

## Model

| member | source | states |
|---|---|---|
| `Fsm.GetStepByIndex` | djangoflow/core/models.py:88-92 | succeeds iff `-len(fsm) <= i < len(fsm)` (otherwise `IndexError`); the step keeps `index == i` and its four components are those of `fsm[i]` under Python's wrap-around indexing |
| `Fsm.StepsUpTo` | djangoflow/core/models.py:96-101 | after scanning any prefix, every collected step is the table rule at its own index, matches both state and role, and indices strictly increase |
| `Fsm.GetSteps` | djangoflow/core/models.py:94-102 | the loop's result is exactly the specification `Steps(fsm, state, role)` |
| `Fsm.StepsUpToComplete` | djangoflow/core/models.py:97-101 | no matching rule of the scanned prefix is skipped |
| `Fsm.StepsExact` | djangoflow/core/models.py:97-101 | rule `i` is returned, as the step with index `i`, iff its state and its role both match; the order is table order |
| `Fsm.StepsOnlyForRole` | djangoflow/core/models.py:98 | a returned step always has the asked role and state, even when another role's rule has the same state |
| `Fsm.StepsRoundTrip` | djangoflow/core/models.py:89-101 | `get_step_by_index(s.index) == s` for every step that `get_steps` returns |
| `Fsm.StepsEmptyIff` | djangoflow/core/models.py:96-102 | the result is the empty list, not an error, exactly when no rule matches |
| `Fsm.SameStepsSameOrder` | djangoflow/core/models.py:97-102 | two index-ordered step lists with the same members are equal |
| `Fsm.StepsCharacterised` | djangoflow/core/models.py:95-102 | any index-ordered list that holds exactly the matching rules at their indices equals what `get_steps` returns |
| `Fsm.CreateRolesUpTo` | djangoflow/core/models.py:107-111 | each role occurs in the creation-role list as many times as it is offered a creation step (duplicates kept) |
| `Fsm.ListsCreationRulesStep` | djangoflow/core/models.py:108-110 | scanning one more rule appends its role exactly when it is a creation rule, keeping the listing in index order |
| `Fsm.CreateRolesOrdered` | djangoflow/core/models.py:107-111 | the creation roles are the roles of the creation rules, one per rule, in increasing table index |
| `Fsm.CreateRolesCharacterised` | djangoflow/core/models.py:107-111 | any list of the creation rules' roles in increasing index order, covering every creation rule, equals what `get_create_roles` builds |
| `Fsm.GetCreateRoles` | djangoflow/core/models.py:104-111 | the loop's result is exactly the specification `CreateRoles(fsm)` |
| `Fsm.CreateRolesMembership` | djangoflow/core/models.py:105-111 | a role is listed iff some rule with current state `None` names it, iff `get_steps(None, role)` is non-empty |
| `Fsm.CreateRolesEmptyIff` | djangoflow/core/models.py:106-111 | a table without a creation rule yields an empty list, not an error |
| `Fsm.FinalStateHasNoSteps` | djangoflow/core/models.py:95-102 | when no rule starts at the final state, no role is offered a step there |
| `Fsm.FormFields` | djangoflow/core/views.py:103-106 | the step's form writes only posted values, only of the step's own fields; when every step field is posted (a valid form), it writes exactly the step's fields |
| `Fsm.Instance.GetCurrentSteps` | djangoflow/core/models.py:113-114 | `get_current_steps(role) == get_steps(self.state, role)` |
| `Fsm.Instance.Apply` | djangoflow/core/views.py:104-107 | the object's fields become the old fields overwritten by the step's form fields, its state becomes the step's next state, and its key is unchanged |
| `Orm.Saved` | djangoflow/core/views.py:106-108 | save writes the record under its key, or under a fresh key when it has none; keys stay below the next fresh key |
| `Orm.Store.Get` | djangoflow/core/views.py:62 | `objects.get(pk=...)` returns a fresh object holding that row's state and fields, or fails when the row is missing |
| `Orm.Store.Save` | djangoflow/core/views.py:108 | the rows afterwards are those `Saved` gives, and the object gets its key |
| `Views.PostAsWritten` | djangoflow/core/views.py:99-109 | the handler as written: its result and the rows afterwards are `PostAsWrittenResult` (lookup, form check, insert of a new object) |
| `Views.Post` | djangoflow/core/views.py:99-109 | the corrected handler: its result and the rows afterwards are `PostResult` (lookup, load by key, form check, write of that instance) |
| `Views.FormValidIff` | djangoflow/core/views.py:105 | the form is valid iff every field of the step is posted, iff the form writes every field of the step |
| `Views.PostOutcome` | djangoflow/core/views.py:102-105 | the corrected handler: a post fails exactly on an out-of-range index, a missing instance or a missing step field, and a failed post changes nothing; the instance's state and the user's role are never checked |
| `Views.PostEffect` | djangoflow/core/views.py:102-108 | the corrected handler: a successful post sets the instance's state to the step's next state, writes the step's fields from the posted data, keeps every other field, and touches no other row |
| `Views.PostAsWrittenIgnoresPk` | djangoflow/core/views.py:103-108 | as written, posting for an existing key leaves that row and every other row unchanged and inserts the result under a key absent before, in the step's next state, holding only the step's fields |
| `Views.PostAsWrittenNeverReadsPk` | djangoflow/core/views.py:99-108 | as written, the result does not depend on `pk`: every post behaves as a creation, and a missing instance is never reported |
| `Views.PostAsWrittenCreatesAsIntended` | djangoflow/core/views.py:99-108 | without a key (creation), the handler as written and the corrected one agree |
| `Views.FlowGet` | djangoflow/core/views.py:54-97 | without a key, the forms are the steps from `None`; with a key, the forms are the steps from the instance's state, and a missing instance is `DoesNotExist`; the forms match the steps one to one, in order, each posting to its step's index |
| `Views.CreateLinksUpTo` | djangoflow/core/views.py:23-31 | every "create" entry belongs to a model whose creation roles contain the user's role |
| `Views.WorkLinksUpTo` | djangoflow/core/views.py:36-46 | every "work on" entry of a model is a row not in the final state that has a current step for the role |
| `Views.OpenLinksUpTo` | djangoflow/core/views.py:34-46 | the "work on" entries of the page are exactly the union of the per-model entries: each comes from some model's list, and every model's entry reaches the page |
| `Views.HomeGet` | djangoflow/core/views.py:13-49 | the two loops build exactly the specified "create" and "work on" lists |
| `Views.CreateLinkOffered` | djangoflow/core/views.py:24-31 | a model is offered for creation iff the role is in its `get_create_roles()`, given distinct model names |
| `Views.WorkLinkListed` | djangoflow/core/views.py:36-46 | an instance is listed iff it is not final and has a current step for the role, given distinct keys |
| `Views.OpenRowListed` | djangoflow/core/views.py:34-46 | every open row of every model (not final, with a current step for the role) appears in the page's "work on" list; with distinct model names and keys, a row is listed iff it is open |
| `Views.FinalNeverListed` | djangoflow/core/views.py:36 | no listed instance is in its model's final state |
| `Income.IncomeCreateRoles` | djangoflow/core/models.py:155-162 | the creation roles of `Income` are exactly `[organizer]` |
| `Income.IncomeStepsAre` | djangoflow/core/models.py:155-162 | the steps for (state, role) are the rules at the given indices, when those are exactly the matching rules in order |
| `Income.IncomeStepsCreate` | djangoflow/core/models.py:156 | from "not created", the organizer gets step 0 and the admin gets nothing |
| `Income.IncomeStepsInit` | djangoflow/core/models.py:157 | from `init`, the admin gets exactly step 1 (to `have-invoice`) and the organizer gets nothing |
| `Income.IncomeStepsHaveInvoice` | djangoflow/core/models.py:158 | from `have-invoice`, the organizer gets exactly step 2 (to `ready-to-payment`) and the admin gets nothing |
| `Income.IncomeStepsReadyToPayment` | djangoflow/core/models.py:159-160 | from `ready-to-payment`, the admin gets steps 3 and 4 in that order (to `payment-done` or `partial-payment`) and the organizer gets nothing |
| `Income.IncomeStepsPartialPayment` | djangoflow/core/models.py:161 | from `partial-payment`, the organizer gets exactly step 5, back to `ready-to-payment` |
| `Income.IncomeFinalIsTerminal` | djangoflow/core/models.py:155-163 | from `fsm_final_state` (`payment-done`), no role gets any step |
| `Income.IncomeTableClosed` | djangoflow/core/models.py:121-163 | every current and next state the table names is a declared state choice, and every next state is either the final state or the current state of some rule |
| `Income.IncomeNoDeadEnd` | djangoflow/core/models.py:155-163 | every declared state other than the final one offers a step to some role |
| `IncomeFlow.CreateThenInvoice` | djangoflow/core/views.py:99-108 | posting the creation step on an empty table gives exactly the walk's starting rows: instance 0 in `init` with the creation fields; only the admin is then offered a step (step 1), and the instance is listed for the admin only |
| `IncomeFlow.PostInvoice` | djangoflow/core/views.py:99-108 | posting step 1 for instance 0 moves it to `have-invoice` and adds the invoice |
| `IncomeFlow.PostReady` | djangoflow/core/views.py:99-108 | posting step 2 moves it to `ready-to-payment` |
| `IncomeFlow.PostPartial` | djangoflow/core/views.py:99-108 | posting step 4 moves it to `partial-payment` (with `payments_received` treated as a column; see Left out) |
| `IncomeFlow.PostExtraDocs` | djangoflow/core/views.py:99-108 | posting step 5 moves it back to `ready-to-payment`: the cycle (with `extra_docs` treated as a stored column; see Left out) |
| `IncomeFlow.PostDone` | djangoflow/core/views.py:99-108 | posting step 3 moves it to the final `payment-done` |
| `IncomeFlow.WalkthroughOffers` | djangoflow/core/models.py:155-163 | at each stop of the walk the acting role is offered exactly the scenario's steps and the other role nothing; once paid, nobody gets a step and the instance is not listed |
| `IncomeFlow.AsWrittenLosesUpdate` | djangoflow/core/views.py:103-108 | as written, the admin's invoice post for instance 0 leaves it in `init` (still waiting for step 1) and creates instance 1 in `have-invoice` without the event |

## Findings

| source | as written | input that shows it | evidently intended | confidence | as-written member | corrected member |
|---|---|---|---|---|---|---|
| djangoflow/core/views.py:103-107 | the post handler builds its form from `request.POST` alone, so `form.save(commit=False)` makes a new object and the `pk` argument is never used; the save then inserts a row | create an income (instance 0, state `init`), then as admin post step 1 with `pk=0` and an invoice: instance 0 stays in `init`, and a second income appears in `have-invoice` holding only the invoice (with the database's non-null foreign keys, the insert fails instead) | bind the form to the instance the key names (`instance=model.objects.get(pk=pk)`), so the update writes that instance's row | high; not executed | `IncomeFlow.AsWrittenLosesUpdate` | `Views.Post` |

`Views.PostAsWritten` and `Views.PostAsWrittenIgnoresPk` model and state the
handler as written. `Views.Post`, `Views.PostOutcome` and `Views.PostEffect`
give and prove the corrected handler; as written, the handler never reports a
missing instance (`Views.PostAsWrittenNeverReadsPk`). The scenario in `IncomeFlow` uses the corrected handler.

## Left out

- The Django ORM, its field types and database persistence. The rows of a
  model class are an in-memory map from key to record. Database constraints
  are not modelled. One example: `Income`'s non-null foreign keys would make
  the as-written update post fail at insert time.
- Views.FlowGet, Views.Post, Fsm.FormFields: every step field is treated as
  a plain column that the step's model form writes. Two `Income` fields are
  not. `payments_received` (rule 4, models.py:160) is only the reverse name of
  `PaymentReceived.income` (models.py:64), not a field of `Income`, so building
  the model form for it at views.py:85 and views.py:103 fails with Django's
  unknown-field error: the admin's page for a `ready-to-payment` income and
  the post of step 4 fail in the program. `extra_docs` is many-to-many
  (models.py:143); `form.save(commit=False)` defers it to `save_m2m()`, which
  views.py:106-108 never calls, so it is never stored, also under the
  corrected handler. `IncomeFlow.PostPartial` and `IncomeFlow.PostExtraDocs`
  therefore state the writes the workflow intends, not ones the program makes.
  Django's form code is not part of this model.
- IncomeFlow.PostPartial, IncomeFlow.PostExtraDocs: these state the writes
  the workflow intends. The program cannot make them. Building the step-4 form
  for `payments_received` fails with Django's unknown-field error at
  views.py:103. `extra_docs` is many-to-many and is never stored, because
  `save_m2m()` is not called.
- Form validation by the framework. A form counts as valid when every field
  of the step is present in the posted data. Per-field checks, conversion of
  posted strings to field types, and defaults for omitted optional fields are
  not modelled.
- `int(step_index)` on a non-numeric string (`ValueError`). The model takes
  the step index as an integer.
- Reflection-based discovery of `FSMModel` subclasses (views.py:14-20). The
  home page takes an explicit list of model classes instead.
- The database query `objects.exclude(state=final).all()`. The home page takes
  each model's rows, in query order, as (key, record) pairs and applies the
  exclusion itself. The order the database returns is not modelled.
- The link texts, `reverse_lazy` URLs, templates, `render`,
  `HttpResponseRedirect` and `LoginRequiredMixin`. The disabled widgets of the
  read-only instance form are also left out: the update page carries the
  instance's record. URL routing is out too: djangoflow/urls.py names no
  `post_flow` route.
- The `print` debugging lines and the empty `MagicPapota` view.
- The domain record classes (`Profile`, `Organizer`, `Event`, `Sponsor`,
  `Category`, `ExtraDocument`, `PaymentReceived`, `Invoice`). They hold no
  workflow logic. Field values are opaque strings.
- `Income.total_payments`: a decimal sum over a reverse relation.
- The `Optional` field tag and `__always_new__`: nothing reads them.
- The commented-out `Payment` and `Refund` classes: they are not live code.
- Concurrency. Two racing posts on one instance are not modelled. The source
  has no guard against them.
- Audit and notification events on a transition. The source does not emit
  them.
- Orm.Saved: a save under a key at or beyond the next fresh key moves the
  next fresh key past it. How a real database sequence behaves there is not
  modelled.
- Stricter behaviours the source does not have are not modelled. This covers
  re-checking (state, role) on post, rejecting posted fields outside the
  step, and treating an empty creation-role list as an error.
