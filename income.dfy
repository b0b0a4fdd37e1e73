/**
  The `Income` model class: money coming into an event, moved by organizers
  and administrators through invoicing and (possibly partial) payment.
 */
module Income {
  import opened Wrappers
  import opened Fsm

  const ORGZER: string := "organizer"
  const ADMIN: string := "admin"

  const S_INIT: string := "init"
  const S_HAVE_INVOICE: string := "have-invoice"
  const S_READY_TO_PAYMENT: string := "ready-to-payment"
  const S_PAYMENT_DONE: string := "payment-done"
  const S_PARTIAL_PAYMENT: string := "partial-payment"

  /** `Income.fsm`. */
  const IncomeFsm: Table := [
    Rule(None, ORGZER, Some(S_INIT), ["event", "sponsor", "category"]),
    Rule(Some(S_INIT), ADMIN, Some(S_HAVE_INVOICE), ["invoice"]),
    Rule(Some(S_HAVE_INVOICE), ORGZER, Some(S_READY_TO_PAYMENT), ["ready_to_payment"]),
    Rule(Some(S_READY_TO_PAYMENT), ADMIN, Some(S_PAYMENT_DONE), ["payment_done"]),
    Rule(Some(S_READY_TO_PAYMENT), ADMIN, Some(S_PARTIAL_PAYMENT), ["payments_received"]),
    Rule(Some(S_PARTIAL_PAYMENT), ORGZER, Some(S_READY_TO_PAYMENT), ["extra_docs"])
  ]

  /** The `Income` class with its final state `payment-done`. */
  const IncomeModel: ModelClass := ModelClass("Income", IncomeFsm, S_PAYMENT_DONE)

  /** The states of `STATE_CHOICES`. */
  const States: set<string> := {S_INIT, S_HAVE_INVOICE, S_READY_TO_PAYMENT, S_PAYMENT_DONE, S_PARTIAL_PAYMENT}

  /** The step built from rule `i` of the table. */
  function IncomeStep(i: nat): Step
    requires i < |IncomeFsm|
  {
    StepOf(i, IncomeFsm[i])
  }

  /** Only organizers may create an income. */
  lemma IncomeCreateRoles()
    ensures CreateRoles(IncomeFsm) == [ORGZER]
  {
    assert CreateRolesUpTo(IncomeFsm, 1) == [ORGZER];
    assert CreateRolesUpTo(IncomeFsm, 2) == [ORGZER];
    assert CreateRolesUpTo(IncomeFsm, 3) == [ORGZER];
    assert CreateRolesUpTo(IncomeFsm, 4) == [ORGZER];
    assert CreateRolesUpTo(IncomeFsm, 5) == [ORGZER];
  }

  /** The steps offered to `role` from `state` are the rules at `indices`,
      provided those are exactly the matching rules, in order. */
  lemma {:induction false} IncomeStepsAre(state: Option<string>, role: string, indices: seq<nat>)
    requires forall k :: 0 <= k < |indices| ==> indices[k] < |IncomeFsm| && Matches(IncomeFsm[indices[k]], state, role)
    requires forall j, k :: 0 <= j < k < |indices| ==> indices[j] < indices[k]
    requires forall i :: 0 <= i < |IncomeFsm| && Matches(IncomeFsm[i], state, role) ==> i in indices
    ensures Steps(IncomeFsm, state, role) == seq(|indices|, k requires 0 <= k < |indices| => IncomeStep(indices[k]))
  {
    var xs := seq(|indices|, k requires 0 <= k < |indices| => IncomeStep(indices[k]));
    forall i | 0 <= i < |IncomeFsm| && Matches(IncomeFsm[i], state, role) ensures StepOf(i, IncomeFsm[i]) in xs {
      var k :| 0 <= k < |indices| && indices[k] == i;
      assert xs[k] == StepOf(i, IncomeFsm[i]);
    }
    StepsCharacterised(IncomeFsm, state, role, xs);
  }

  /** From "not yet created", only organizers are offered a step: rule 0. */
  lemma IncomeStepsCreate()
    ensures Steps(IncomeFsm, None, ORGZER) == [IncomeStep(0)]
    ensures Steps(IncomeFsm, None, ADMIN) == []
  {
    IncomeStepsAre(None, ORGZER, [0]);
    IncomeStepsAre(None, ADMIN, []);
  }

  /** From `init`, only administrators are offered a step: rule 1, to `have-invoice`. */
  lemma IncomeStepsInit()
    ensures Steps(IncomeFsm, Some(S_INIT), ADMIN) == [IncomeStep(1)]
    ensures Steps(IncomeFsm, Some(S_INIT), ORGZER) == []
    ensures IncomeStep(1).next == Some(S_HAVE_INVOICE)
  {
    IncomeStepsAre(Some(S_INIT), ADMIN, [1]);
    IncomeStepsAre(Some(S_INIT), ORGZER, []);
  }

  /** From `have-invoice`, only organizers are offered a step: rule 2, to `ready-to-payment`. */
  lemma IncomeStepsHaveInvoice()
    ensures Steps(IncomeFsm, Some(S_HAVE_INVOICE), ORGZER) == [IncomeStep(2)]
    ensures Steps(IncomeFsm, Some(S_HAVE_INVOICE), ADMIN) == []
    ensures IncomeStep(2).next == Some(S_READY_TO_PAYMENT)
  {
    IncomeStepsAre(Some(S_HAVE_INVOICE), ORGZER, [2]);
    IncomeStepsAre(Some(S_HAVE_INVOICE), ADMIN, []);
  }

  /** From `ready-to-payment`, administrators choose between rule 3 (to the
      final `payment-done`) and rule 4 (to `partial-payment`); organizers get nothing. */
  lemma IncomeStepsReadyToPayment()
    ensures Steps(IncomeFsm, Some(S_READY_TO_PAYMENT), ADMIN) == [IncomeStep(3), IncomeStep(4)]
    ensures Steps(IncomeFsm, Some(S_READY_TO_PAYMENT), ORGZER) == []
    ensures IncomeStep(3).next == Some(S_PAYMENT_DONE) && IncomeStep(4).next == Some(S_PARTIAL_PAYMENT)
  {
    IncomeStepsAre(Some(S_READY_TO_PAYMENT), ADMIN, [3, 4]);
    IncomeStepsAre(Some(S_READY_TO_PAYMENT), ORGZER, []);
  }

  /** From `partial-payment`, only organizers are offered a step: rule 5, back
      to `ready-to-payment`. */
  lemma IncomeStepsPartialPayment()
    ensures Steps(IncomeFsm, Some(S_PARTIAL_PAYMENT), ORGZER) == [IncomeStep(5)]
    ensures Steps(IncomeFsm, Some(S_PARTIAL_PAYMENT), ADMIN) == []
    ensures IncomeStep(5).next == Some(S_READY_TO_PAYMENT)
  {
    IncomeStepsAre(Some(S_PARTIAL_PAYMENT), ORGZER, [5]);
    IncomeStepsAre(Some(S_PARTIAL_PAYMENT), ADMIN, []);
  }

  /** No rule leaves `payment-done`: nobody is offered a step there. */
  lemma IncomeFinalIsTerminal(role: string)
    ensures Steps(IncomeFsm, Some(IncomeModel.final), role) == []
  {
    FinalStateHasNoSteps(IncomeModel, role);
  }

  /** The table is closed: every next state is the final state or the state of
      some rule, and every state it names is one of the declared choices. */
  lemma IncomeTableClosed()
    ensures forall i :: 0 <= i < |IncomeFsm| ==>
      (IncomeFsm[i].current.Some? ==> IncomeFsm[i].current.value in States)
    ensures forall i :: 0 <= i < |IncomeFsm| ==>
      IncomeFsm[i].next.Some? && IncomeFsm[i].next.value in States
      && (IncomeFsm[i].next == Some(S_PAYMENT_DONE)
          || exists i' :: 0 <= i' < |IncomeFsm| && IncomeFsm[i'].current == IncomeFsm[i].next)
  {
    assert IncomeFsm[1].current == Some(S_INIT);
    assert IncomeFsm[2].current == Some(S_HAVE_INVOICE);
    assert IncomeFsm[3].current == Some(S_READY_TO_PAYMENT);
    assert IncomeFsm[5].current == Some(S_PARTIAL_PAYMENT);
  }

  /** No state short of the final one is stuck: from each declared state other
      than `payment-done` some role is offered a step. */
  lemma IncomeNoDeadEnd(state: string)
    requires state in States && state != S_PAYMENT_DONE
    ensures Steps(IncomeFsm, Some(state), ORGZER) != [] || Steps(IncomeFsm, Some(state), ADMIN) != []
  {
    IncomeStepsInit();
    IncomeStepsHaveInvoice();
    IncomeStepsReadyToPayment();
    IncomeStepsPartialPayment();
  }
}
