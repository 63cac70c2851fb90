/**
 * The order creation container (`CreateOrderContainer`): the Next-button
 * gate per step, `handleNext` with its per-step validation, and
 * `handleCreateOrder`, which overwrites the order identifier before
 * submitting; and the page that wires them into the step wizard.
 */
module CreateOrder {
  import opened Wrappers
  import opened JsNumber
  import opened OrderSchema
  import Text
  import StepWizard

  const StepLabels: seq<string> := ["Client Information", "Order Details", "Payment & Delivery"]

  const FillRequiredMessage := "Please fill in all required fields"

  /** `isNextStepDisabled(currentStep)`. */
  function IsNextStepDisabled(f: OrderForm, step: int): bool
  {
    if step == 0 then f.clientName == [] || f.address == []
    else if step == 1 then (f.products.None? || |f.products.value| == 0) || f.quantity.Below(1.0)
    else false
  }

  /** Passing the first step's validation implies that its Next was enabled. */
  lemma ClientValidationImpliesGate(f: OrderForm, now: int)
    requires FieldsValid(f, ClientFields, now)
    ensures !IsNextStepDisabled(f, 0)
  {
    assert FieldValid(f, ClientName, now) && FieldValid(f, Address, now);
  }

  /**
   * The first step's gate ignores white space and the date: a name of one
   * space with no date enables Next, and validation still refuses it.
   */
  lemma ClientGateAdmitsBlankName(f: OrderForm, now: int)
    requires f.clientName == " " && f.address == "Dhaka" && f.expectedDelivery.None?
    ensures !IsNextStepDisabled(f, 0) && !FieldsValid(f, ClientFields, now)
  {
    assert ClientName in ClientFields;
    assert Text.Trim(" ") == [];
  }

  /** Passing the second step's validation implies that its Next was enabled. */
  lemma DetailValidationImpliesGate(f: OrderForm, now: int)
    requires FieldsValid(f, DetailFields, now)
    ensures !IsNextStepDisabled(f, 1)
  {
    assert FieldValid(f, Products, now) && FieldValid(f, Quantity, now);
  }

  /** An empty product id or an empty quantity input (NaN) enables Next but fails validation. */
  lemma DetailGateAdmitsInvalid(f: OrderForm, now: int)
    requires (f.products == Some([""]) && f.quantity == Number(2.0)) || (f.products == Some(["p1"]) && f.quantity == NaN)
    ensures !IsNextStepDisabled(f, 1) && !FieldsValid(f, DetailFields, now)
  {
    assert Products in DetailFields && Quantity in DetailFields;
    assert |f.products.value[0]| >= 1 ==> f.quantity == NaN;
  }

  /** What one `handleNext` call does. */
  datatype NextEffects = NextEffects(advance: bool, toast: Option<string>)

  /** `handleNext(step, goNext)` at instant `now`. */
  function NextStepEffects(step: int, f: OrderForm, now: int): (e: NextEffects)
    ensures e.advance <==>
      (step == 0 ==> FieldsValid(f, ClientFields, now)) &&
      (step == 1 ==> FieldsValid(f, DetailFields, now))
    ensures e.toast.None? <==> e.advance
    ensures e.toast.Some? ==> e.toast.value == FillRequiredMessage
  {
    if step == 0 then
      if !FieldsValid(f, ClientFields, now) then NextEffects(false, Some(FillRequiredMessage))
      else NextEffects(true, None)
    else if step == 1 then
      if !FieldsValid(f, DetailFields, now) then NextEffects(false, Some(FillRequiredMessage))
      else NextEffects(true, None)
    else NextEffects(true, None)
  }

  /** The first step advances exactly when the names hold visible text and the date is not in the past. */
  lemma ClientStepAdvance(f: OrderForm, now: int)
    ensures NextStepEffects(0, f, now).advance <==>
      Text.HasVisible(f.clientName) && Text.HasVisible(f.address) &&
      f.expectedDelivery.Some? && f.expectedDelivery.value >= now
  {
    var e := NextStepEffects(0, f, now);
    ClientFieldsValid(f, now);
    assert e.advance <==>
      FieldValid(f, ClientName, now) && FieldValid(f, Address, now) && FieldValid(f, ExpectedDelivery, now);
    ClientNameRule(f, now);
    DeliveryDateRule(f, now);
  }

  /**
   * The date is checked against the clock twice, on Next and on Publish, so
   * the two checks can disagree: a form whose client step advanced at `t1`
   * is refused at a later `t2` once the chosen date lies before `t2`, with
   * nothing edited in between.
   */
  lemma DateCheckedTwice(f: OrderForm, t1: int, t2: nat)
    requires NextStepEffects(0, f, t1).advance
    requires f.expectedDelivery.Some? && f.expectedDelivery.value < t2
    ensures t1 < t2
    ensures CreateSubmission(f, t2).None?
  {
    ClientStepAdvance(f, t1);
    DeliveryDateRule(f, t2);
    assert !FieldValid(f, ExpectedDelivery, t2);
  }

  // ---------------------------------------------------------------- delivery select

  /** The values the payment step's delivery-status select offers, as written. */
  const DeliveryChoices: seq<string> := ["pending", "shipped", "delivered", "cancelled"]

  /** The same select offering the schema's own spelling of each status. */
  const CorrectedDeliveryChoices: seq<string> :=
    [DeliveryName(DeliveryPending), DeliveryName(Shipped), DeliveryName(Delivered), DeliveryName(Canceled)]

  /**
   * As written, the select's last item 'cancelled' is refused by the
   * delivery rule, so a form with it never submits; the other three items
   * are accepted.
   */
  lemma CancelledChoiceRefused(f: OrderForm, now: nat, i: int)
    requires 0 <= i < |DeliveryChoices|
    ensures FieldValid(f.(delivery := Some(DeliveryChoices[i])), Delivery, now) <==> i < 3
    ensures i == 3 ==> CreateSubmission(f.(delivery := Some(DeliveryChoices[i])), now).None?
  {
    var g := f.(delivery := Some(DeliveryChoices[i]));
    if i == 3 {
      assert !FieldValid(g, Delivery, now);
      assert Delivery in AllFields;
    }
  }

  /** With the schema's spelling every item of the select is accepted and parses to its own status. */
  lemma CorrectedChoicesAccepted(f: OrderForm, now: nat, i: int)
    requires 0 <= i < |CorrectedDeliveryChoices|
    ensures FieldValid(f.(delivery := Some(CorrectedDeliveryChoices[i])), Delivery, now)
    ensures ParseDelivery(CorrectedDeliveryChoices[i]) == Some([DeliveryPending, Shipped, Delivered, Canceled][i])
  {
    var d := [DeliveryPending, Shipped, Delivered, Canceled][i];
    assert CorrectedDeliveryChoices[i] == DeliveryName(d);
    ParseNames(PaymentPending, d);
  }

  /** `handleCreateOrder`: the raw form values with `order_id` overwritten, or nothing when validation fails. */
  function CreateSubmission(f: OrderForm, now: nat): (submitted: Option<OrderForm>)
    ensures submitted.Some? <==> Valid(f, now)
    ensures submitted.Some? ==> submitted.value == f.(orderId := Some(GeneratedOrderId(now)))
  {
    if Valid(f, now) then Some(f.(orderId := Some(GeneratedOrderId(now)))) else None
  }

  /** What is submitted differs from the form only in `order_id`, which reads back as the submission instant. */
  lemma SubmissionKeepsFields(f: OrderForm, now: nat)
    requires Valid(f, now)
    ensures var s := CreateSubmission(f, now).value;
      s.clientName == f.clientName && s.products == f.products && s.quantity == f.quantity &&
      s.address == f.address && s.expectedDelivery == f.expectedDelivery &&
      s.payment == f.payment && s.delivery == f.delivery &&
      s.orderId.Some? && s.orderId.value[..4] == "ORD-" && Text.DecimalValue(s.orderId.value[4..]) == now
  {
  }

  /** The submitted values also satisfy the schema: overwriting `order_id` cannot break validation. */
  lemma SubmissionStaysValid(f: OrderForm, now: nat)
    requires Valid(f, now)
    ensures Valid(CreateSubmission(f, now).value, now)
  {
    var s := CreateSubmission(f, now).value;
    forall field | field in AllFields ensures FieldValid(s, field, now) {
      assert FieldValid(f, field, now);
    }
  }

  class OrderCreation {
    const wizard: StepWizard.Wizard
    var form: OrderForm
    /** Error toasts shown, oldest first. */
    var toasts: seq<string>
    /** Values handed to `handleSubmit`, oldest first. */
    var submitted: seq<OrderForm>

    ghost predicate Valid()
      reads this, wizard
    {
      wizard.labels == StepLabels && wizard.Valid()
    }

    constructor ()
      ensures Valid() && fresh(wizard)
      ensures wizard.activeStep == 0 && form == DefaultForm
      ensures toasts == [] && submitted == []
    {
      wizard := new StepWizard.Wizard(StepLabels);
      form := DefaultForm;
      toasts := [];
      submitted := [];
    }

    /** User input replaces form values. */
    method Edit(f: OrderForm)
      modifies this
      ensures form == f && toasts == old(toasts) && submitted == old(submitted)
    {
      form := f;
    }

    /** A click on an enabled Next, at instant `now`. */
    method HandleNext(now: int) returns (e: NextEffects)
      requires Valid()
      modifies this, wizard
      ensures Valid()
      ensures e == NextStepEffects(old(wizard.activeStep), old(form), now)
      ensures wizard.activeStep == if e.advance then StepWizard.NextIndex(old(wizard.activeStep), |StepLabels|)
                                   else old(wizard.activeStep)
      ensures form == old(form) && submitted == old(submitted)
      ensures toasts == old(toasts) + (if e.toast.Some? then [e.toast.value] else [])
    {
      var f := form;
      e := NextStepEffects(wizard.activeStep, f, now);
      wizard.HandleNextClick(Some((step: int) =>
        if NextStepEffects(step, f, now).advance then StepWizard.CallGoNext else StepWizard.CallNeither));
      if e.toast.Some? {
        toasts := toasts + [e.toast.value];
      }
    }

    /** `handleCreateOrder` at instant `now`. */
    method HandleCreateOrder(now: nat)
      modifies this
      ensures form == old(form)
      ensures submitted == old(submitted) +
        (if OrderSchema.Valid(form, now) then [form.(orderId := Some(GeneratedOrderId(now)))] else [])
      ensures toasts == old(toasts) + (if OrderSchema.Valid(form, now) then [] else [FillRequiredMessage])
    {
      var data := CreateSubmission(form, now);
      if data.Some? {
        submitted := submitted + [data.value];
      } else {
        toasts := toasts + [FillRequiredMessage];
      }
    }
  }
}
