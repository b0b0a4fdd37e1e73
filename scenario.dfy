/**
  The life of one income, posted step by step through the post handler: the
  states it passes through, the steps each role is offered on the way, and
  what the handler as written does instead on the first update.
 */
module IncomeFlow {
  import opened Wrappers
  import opened Fsm
  import opened Orm
  import opened Views
  import opened Income

  const EmptyDb: Db := Db(map[], 0)

  const CreateData: map<string, string> := map["event" := "pycon", "sponsor" := "acme", "category" := "gold"]
  const InvoiceData: map<string, string> := map["invoice" := "A-0001"]
  const ReadyData: map<string, string> := map["ready_to_payment" := "true"]
  const PartialData: map<string, string> := map["payments_received" := "500"]
  const ExtraDocsData: map<string, string> := map["extra_docs" := "receipt"]
  const DoneData: map<string, string> := map["payment_done" := "true"]

  /** The rows after posting step `stepIndex` of the income table. */
  function Posted(db: Db, stepIndex: int, pk: Option<nat>, data: map<string, string>): (db': Db)
    requires DbValid(db)
    ensures DbValid(db')
  {
    PostResult(db, IncomeFsm, stepIndex, pk, data).1
  }

  /** Posting rule `i` with exactly that rule's fields writes the posted map as it is. */
  lemma FormFieldsExact(i: nat, data: map<string, string>)
    requires i < |IncomeFsm|
    requires forall f :: f in data <==> f in IncomeFsm[i].fields
    ensures FormFields(IncomeStep(i), data) == data
  {
  }

  /** Updating instance 0 with rule `i` and exactly its fields. */
  lemma UpdateIncome(db: Db, i: nat, data: map<string, string>)
    requires DbValid(db) && 0 in db.rows && i < |IncomeFsm|
    requires forall f :: f in data <==> f in IncomeFsm[i].fields
    ensures Posted(db, i, Some(0), data) == Db(db.rows[0 := Record(IncomeFsm[i].next, db.rows[0].values + data)], db.nextPk)
  {
    FormFieldsExact(i, data);
    assert GetStepByIndex(IncomeFsm, i) == Ok(IncomeStep(i));
  }

  /** An organizer creates an income, which lands in `init` with the creation
      fields; the administrator is then offered exactly step 1. */
  lemma CreateThenInvoice()
    ensures var db1 := Posted(EmptyDb, 0, None, CreateData);
      && PostResult(EmptyDb, IncomeFsm, 0, None, CreateData).0 == Ok(0)
      && db1 == AfterCreate
      && db1.rows == map[0 := Record(Some(S_INIT), CreateData)]
      && Steps(IncomeFsm, db1.rows[0].state, ADMIN) == [IncomeStep(1)]
      && Steps(IncomeFsm, db1.rows[0].state, ORGZER) == []
      && IsOpen(IncomeModel, db1.rows[0], ADMIN) && !IsOpen(IncomeModel, db1.rows[0], ORGZER)
  {
    IncomeStepsInit();
    FormFieldsExact(0, CreateData);
    assert GetStepByIndex(IncomeFsm, 0) == Ok(IncomeStep(0));
    assert map[] + CreateData == CreateData;
  }

  /** Instance 0 of `db` moved to `state` with `data` written over its fields. */
  function Updated(db: Db, state: string, data: map<string, string>): Db
    requires 0 in db.rows
  {
    Db(db.rows[0 := Record(Some(state), db.rows[0].values + data)], db.nextPk)
  }

  /** The rows after each step of the walk through the workflow. */
  const AfterCreate: Db := Db(map[0 := Record(Some(S_INIT), CreateData)], 1)
  const AfterInvoice: Db := Updated(AfterCreate, S_HAVE_INVOICE, InvoiceData)
  const AfterReady: Db := Updated(AfterInvoice, S_READY_TO_PAYMENT, ReadyData)
  const AfterPartial: Db := Updated(AfterReady, S_PARTIAL_PAYMENT, PartialData)
  const AfterExtraDocs: Db := Updated(AfterPartial, S_READY_TO_PAYMENT, ExtraDocsData)
  const AfterDone: Db := Updated(AfterExtraDocs, S_PAYMENT_DONE, DoneData)

  /** The administrator records the invoice: `init` becomes `have-invoice`. */
  lemma PostInvoice()
    ensures Posted(AfterCreate, 1, Some(0), InvoiceData) == AfterInvoice
  {
    UpdateIncome(AfterCreate, 1, InvoiceData);
  }

  /** The organizer marks it ready: `have-invoice` becomes `ready-to-payment`. */
  lemma PostReady()
    ensures Posted(AfterInvoice, 2, Some(0), ReadyData) == AfterReady
  {
    UpdateIncome(AfterInvoice, 2, ReadyData);
  }

  /** The administrator records a partial payment: on to `partial-payment`.
      `payments_received` is taken as a column here; on `Income` it is a
      reverse relation, so the program cannot build this form. */
  lemma PostPartial()
    ensures Posted(AfterReady, 4, Some(0), PartialData) == AfterPartial
  {
    UpdateIncome(AfterReady, 4, PartialData);
  }

  /** The organizer adds documents: back to `ready-to-payment`. `extra_docs`
      is taken as a stored column here; as a many-to-many field the program
      never stores it. */
  lemma PostExtraDocs()
    ensures Posted(AfterPartial, 5, Some(0), ExtraDocsData) == AfterExtraDocs
  {
    UpdateIncome(AfterPartial, 5, ExtraDocsData);
  }

  /** The administrator records the full payment: the final `payment-done`. */
  lemma PostDone()
    ensures Posted(AfterExtraDocs, 3, Some(0), DoneData) == AfterDone
  {
    UpdateIncome(AfterExtraDocs, 3, DoneData);
  }

  /** Along the walk each role is offered exactly the steps of the income
      scenario: partial payment returns to `ready-to-payment`, and once paid
      nobody is offered anything and the income is no longer listed. */
  lemma WalkthroughOffers()
    ensures Steps(IncomeFsm, AfterInvoice.rows[0].state, ORGZER) == [IncomeStep(2)]
    ensures Steps(IncomeFsm, AfterInvoice.rows[0].state, ADMIN) == []
    ensures Steps(IncomeFsm, AfterReady.rows[0].state, ADMIN) == [IncomeStep(3), IncomeStep(4)]
    ensures Steps(IncomeFsm, AfterReady.rows[0].state, ORGZER) == []
    ensures Steps(IncomeFsm, AfterPartial.rows[0].state, ORGZER) == [IncomeStep(5)]
    ensures Steps(IncomeFsm, AfterPartial.rows[0].state, ADMIN) == []
    ensures Steps(IncomeFsm, AfterExtraDocs.rows[0].state, ADMIN) == [IncomeStep(3), IncomeStep(4)]
    ensures Steps(IncomeFsm, AfterExtraDocs.rows[0].state, ORGZER) == []
    ensures forall role :: Steps(IncomeFsm, AfterDone.rows[0].state, role) == []
    ensures forall role :: !IsOpen(IncomeModel, AfterDone.rows[0], role)
  {
    IncomeStepsHaveInvoice();
    IncomeStepsReadyToPayment();
    IncomeStepsPartialPayment();
    forall role ensures Steps(IncomeFsm, AfterDone.rows[0].state, role) == [] {
      IncomeFinalIsTerminal(role);
    }
  }

  /** The handler as written, on the administrator's first update: instance 0
      stays in `init` and is still offered step 1, while a second income holding
      only the invoice appears in `have-invoice`. */
  lemma AsWrittenLosesUpdate()
    ensures
      var db1 := Posted(EmptyDb, 0, None, CreateData);
      var out := PostAsWrittenResult(db1, IncomeFsm, 1, Some(0), InvoiceData);
      && out.0 == Ok(1)
      && out.1.rows[0] == Record(Some(S_INIT), CreateData)
      && Steps(IncomeFsm, out.1.rows[0].state, ADMIN) == [IncomeStep(1)]
      && out.1.rows[1] == Record(Some(S_HAVE_INVOICE), InvoiceData)
      && "event" !in out.1.rows[1].values
  {
    CreateThenInvoice();
    FormFieldsExact(1, InvoiceData);
    assert GetStepByIndex(IncomeFsm, 1) == Ok(IncomeStep(1));
    assert map[] + InvoiceData == InvoiceData;
  }
}
