/**
 * The product creation container (`CreateProductContainer`): the Next-button
 * gate per step, the `handleNext` procedure with its duplicate-name check
 * against the backend, and `handleCreateProduct`; and the page that wires
 * them into the step wizard.
 */
module CreateProduct {
  import opened Wrappers
  import opened JsNumber
  import opened ProductSchema
  import StepWizard
  import Text

  const StepLabels: seq<string> := ["Basic Information", "Inventory & Pricing", "Media"]

  // ---------------------------------------------------------------- Next gate

  /** `isNextStepDisabled(currentStep)`. */
  function IsNextStepDisabled(f: ProductForm, step: int): bool
  {
    if step == 0 then f.name == [] || f.sku == [] || f.category == []
    else if step == 1 then !f.price.Truthy() || f.price.AtMost(0.0) || f.stock.Below(0.0)
    else false
  }

  /** On the first step Next is enabled exactly when the step's own validation passes. */
  lemma BasicGateIsValidation(f: ProductForm, isUrl: string -> bool)
    ensures !IsNextStepDisabled(f, 0) <==> FieldsValid(f, BasicFields, isUrl)
  {
    if !FieldsValid(f, BasicFields, isUrl) {
      var x :| x in BasicFields && !FieldValid(f, x, isUrl);
    }
  }

  /** On the second step Next is enabled exactly when the price is a positive number and the stock is not negative. */
  lemma InventoryGate(f: ProductForm)
    ensures !IsNextStepDisabled(f, 1) <==>
      f.price.Number? && f.price.value > 0.0 && !(f.stock.Number? && f.stock.value < 0.0)
  {
  }

  /** A numeric form that passes the second step's gate satisfies the schema's price and stock rules. */
  lemma InventoryGateImpliesRules(f: ProductForm, isUrl: string -> bool)
    requires !IsNextStepDisabled(f, 1) && f.stock.Number?
    ensures FieldValid(f, Price, isUrl) && FieldValid(f, Stock, isUrl)
  {
  }

  /** An empty stock input (NaN) passes the gate but not validation: an enabled Next can still be refused. */
  lemma InventoryGateAdmitsNaNStock(f: ProductForm, isUrl: string -> bool)
    requires f.price == Number(5.0) && f.stock == NaN
    ensures !IsNextStepDisabled(f, 1) && !FieldsValid(f, InventoryFields, isUrl)
  {
    assert Stock in InventoryFields;
  }

  /** A zero price passes validation but disables Next. */
  lemma InventoryGateRejectsZeroPrice(f: ProductForm, isUrl: string -> bool)
    requires f.price == Number(0.0) && f.stock == Number(3.0) && f.status == None
    ensures IsNextStepDisabled(f, 1) && FieldsValid(f, InventoryFields, isUrl)
  {
  }

  /** The last step and beyond never disable Next. */
  lemma LaterStepsEnabled(f: ProductForm, step: int)
    requires step >= 2
    ensures !IsNextStepDisabled(f, step)
  {
  }

  // ---------------------------------------------------------------- duplicate check

  /** The body of an ok response, as far as `handleNext` looks at it. */
  datatype Body = NotJson | JsonArray(length: nat) | OtherJson

  /** The outcome of `GET /products?product_name=<name>`. */
  datatype NameLookup = NetworkError | Response(status: int, body: Body)

  predicate IsOk(status: int) { 200 <= status <= 299 }

  /** The backend reports that the name is taken. */
  predicate DuplicateFound(r: NameLookup)
  {
    r.Response? && r.status != 404 && IsOk(r.status) && r.body.JsonArray? && r.body.length > 0
  }

  /** The backend reports that the name is free: a 404, or an ok JSON body that is not a non-empty array. */
  predicate NameFree(r: NameLookup)
  {
    r.Response? && (r.status == 404 || (IsOk(r.status) && !r.body.NotJson? && !DuplicateFound(r)))
  }

  /** The check could not be made: a network error, a status that is neither 404 nor ok, or a body that is not JSON. */
  predicate LookupFailed(r: NameLookup)
  {
    !DuplicateFound(r) && !NameFree(r)
  }

  const FillRequiredMessage := "Please fill in all required fields"
  const UniqueNameMessage := "Product name must be unique"
  const LookupFailedMessage := "Unable to verify product name. Please try again."

  function DuplicateMessage(name: string): string
  {
    "'" + name + "' already exists. Please rename the product and try again."
  }

  /** The duplicate toast quotes the candidate name. */
  lemma DuplicateMessageNamesProduct(name: string)
    ensures Text.Contains(DuplicateMessage(name), name)
  {
    var m := DuplicateMessage(name);
    assert m[1..1 + |name|] == name;
    assert Text.OccursAt(m, name, 1);
  }

  /** Everything one `handleNext` call does. */
  datatype NextEffects = NextEffects(
    queried: bool,              // the duplicate-name request was sent
    advance: bool,              // `goNext` was called
    nameError: Option<string>,  // manual error set on product_name
    toast: Option<string>)      // error toast shown

  /** `handleNext(step, goNext)` with the backend's answer to the name lookup as an input. */
  function NextStepEffects(step: int, f: ProductForm, lookup: NameLookup, isUrl: string -> bool): (e: NextEffects)
    ensures e.advance <==>
      (step == 0 ==> FieldsValid(f, BasicFields, isUrl) && NameFree(lookup)) &&
      (step == 1 ==> FieldsValid(f, InventoryFields, isUrl))
    ensures e.queried <==> step == 0 && FieldsValid(f, BasicFields, isUrl)
    ensures e.nameError.Some? <==> e.queried && DuplicateFound(lookup)
    ensures e.nameError.Some? ==> e.nameError.value == UniqueNameMessage
    ensures e.toast.None? <==> e.advance
  {
    if step == 0 then
      if !FieldsValid(f, BasicFields, isUrl) then NextEffects(false, false, None, Some(FillRequiredMessage))
      else match lookup
        case NetworkError => NextEffects(true, false, None, Some(LookupFailedMessage))
        case Response(status, body) =>
          if status == 404 then NextEffects(true, true, None, None)
          else if !IsOk(status) then NextEffects(true, false, None, Some(LookupFailedMessage))
          else match body
            case NotJson => NextEffects(true, false, None, Some(LookupFailedMessage))
            case JsonArray(n) =>
              if n > 0 then NextEffects(true, false, Some(UniqueNameMessage), Some(DuplicateMessage(f.name)))
              else NextEffects(true, true, None, None)
            case OtherJson => NextEffects(true, true, None, None)
    else if step == 1 then
      if FieldsValid(f, InventoryFields, isUrl) then NextEffects(false, true, None, None)
      else NextEffects(false, false, None, Some(FillRequiredMessage))
    else NextEffects(false, true, None, None)
  }

  /** A duplicate blocks the step, marks the name field and names the product in the toast. */
  lemma DuplicateBlocks(f: ProductForm, lookup: NameLookup, isUrl: string -> bool)
    requires FieldsValid(f, BasicFields, isUrl) && DuplicateFound(lookup)
    ensures var e := NextStepEffects(0, f, lookup, isUrl);
      !e.advance && e.nameError == Some(UniqueNameMessage) && e.toast.Some? && Text.Contains(e.toast.value, f.name)
  {
    DuplicateMessageNamesProduct(f.name);
  }

  /** A failed lookup blocks the step without touching field errors, with the retry toast. */
  lemma LookupFailureBlocks(f: ProductForm, lookup: NameLookup, isUrl: string -> bool)
    requires FieldsValid(f, BasicFields, isUrl) && LookupFailed(lookup)
    ensures var e := NextStepEffects(0, f, lookup, isUrl);
      !e.advance && e.nameError.None? && e.toast == Some(LookupFailedMessage)
  {
  }

  /**
   * The three lookup classes, branch by branch: a 404 whatever its body, or
   * an ok JSON body that is not a non-empty array, means the name is free;
   * a rejected `fetch`, a status that is neither 404 nor ok, or an ok body
   * that is not JSON ends in the `catch`; and no answer is both a duplicate
   * and free.
   */
  lemma LookupClasses(r: NameLookup)
    ensures NameFree(r) <==>
      r.Response? && (r.status == 404 || (IsOk(r.status) && (r.body.OtherJson? || r.body == JsonArray(0))))
    ensures LookupFailed(r) <==>
      r.NetworkError? || (r.status != 404 && (!IsOk(r.status) || r.body.NotJson?))
    ensures !(DuplicateFound(r) && NameFree(r))
  {
  }

  // ---------------------------------------------------------------- publish

  /** `handleCreateProduct`: the raw form values handed to `handleSubmit`, or nothing when validation fails. */
  function CreateSubmission(f: ProductForm, isUrl: string -> bool): (submitted: Option<ProductForm>)
    ensures submitted.Some? <==> Valid(f, isUrl)
    ensures submitted.Some? ==> submitted.value == f && Parse(f, isUrl).Some?
  {
    if Valid(f, isUrl) then Some(f) else None
  }

  /** A required text field left empty blocks submission. */
  lemma EmptyRequiredBlocksCreate(f: ProductForm, isUrl: string -> bool)
    requires f.name == [] || f.sku == [] || f.category == []
    ensures CreateSubmission(f, isUrl).None?
  {
    assert Name in AllFields && Sku in AllFields && Category in AllFields;
  }

  /**
   * With the provider's default `image: ''` left in place, no product can be
   * created, whatever the other fields hold: the empty string is present and
   * is not a URL.
   */
  lemma DefaultImageBlocksCreate(f: ProductForm, isUrl: string -> bool)
    requires f.image == DefaultForm.image && !isUrl("")
    ensures CreateSubmission(f, isUrl).None?
  {
    EmptyImageIsPresent(f, isUrl);
  }

  // ---------------------------------------------------------------- the page

  class ProductCreation {
    const wizard: StepWizard.Wizard
    var form: ProductForm
    /** The manual error on product_name, once set. */
    var nameError: Option<string>
    /** Error toasts shown, oldest first. */
    var toasts: seq<string>
    /** Values handed to `handleSubmit`, oldest first. */
    var submitted: seq<ProductForm>
    /** Duplicate-name requests sent. */
    var lookups: nat

    ghost predicate Valid()
      reads this, wizard
    {
      wizard.labels == StepLabels && wizard.Valid()
    }

    constructor ()
      ensures Valid() && fresh(wizard)
      ensures wizard.activeStep == 0 && form == DefaultForm
      ensures nameError.None? && toasts == [] && submitted == [] && lookups == 0
    {
      wizard := new StepWizard.Wizard(StepLabels);
      form := DefaultForm;
      nameError := None;
      toasts := [];
      submitted := [];
      lookups := 0;
    }

    /** User input replaces form values. */
    method Edit(f: ProductForm)
      modifies this
      ensures form == f
      ensures nameError == old(nameError) && toasts == old(toasts)
      ensures submitted == old(submitted) && lookups == old(lookups)
    {
      form := f;
    }

    /**
     * A click on an enabled Next: the wizard hands the active step to
     * `handleNext`, which calls `goNext` at most once.
     */
    method HandleNext(lookup: NameLookup, isUrl: string -> bool) returns (e: NextEffects)
      requires Valid()
      modifies this, wizard
      ensures Valid()
      ensures e == NextStepEffects(old(wizard.activeStep), old(form), lookup, isUrl)
      ensures wizard.activeStep == if e.advance then StepWizard.NextIndex(old(wizard.activeStep), |StepLabels|)
                                   else old(wizard.activeStep)
      ensures form == old(form) && submitted == old(submitted)
      ensures lookups == old(lookups) + (if e.queried then 1 else 0)
      ensures nameError == if e.nameError.Some? then e.nameError else old(nameError)
      ensures toasts == old(toasts) + (if e.toast.Some? then [e.toast.value] else [])
    {
      var f := form;
      var step := wizard.activeStep;
      e := NextStepEffects(step, f, lookup, isUrl);
      wizard.HandleNextClick(Some((step: int) =>
        if NextStepEffects(step, f, lookup, isUrl).advance then StepWizard.CallGoNext
        else StepWizard.CallNeither));
      assert wizard.activeStep == if e.advance then StepWizard.NextIndex(step, |StepLabels|) else step;
      if e.queried {
        lookups := lookups + 1;
      }
      if e.nameError.Some? {
        nameError := e.nameError;
      }
      if e.toast.Some? {
        toasts := toasts + [e.toast.value];
      }
    }

    /** A press on Next: ignored on the last step (Publish is shown there) and while Next is disabled. */
    method PressNext(loading: bool, lookup: NameLookup, isUrl: string -> bool)
      requires Valid()
      modifies this, wizard
      ensures Valid()
      ensures wizard.activeStep == old(wizard.activeStep) || wizard.activeStep == old(wizard.activeStep) + 1
      ensures wizard.activeStep == old(wizard.activeStep) + 1 ==>
        !loading && !IsNextStepDisabled(old(form), old(wizard.activeStep)) &&
        (old(wizard.activeStep) == 0 ==> FieldsValid(old(form), BasicFields, isUrl) && NameFree(lookup))
    {
      var f := form;
      if !wizard.ShowsPublish() && !wizard.NextDisabled(loading, Some((step: int) => IsNextStepDisabled(f, step))) {
        var _ := HandleNext(lookup, isUrl);
      }
    }

    /** `handleCreateProduct` on the last step. */
    method HandleCreateProduct(isUrl: string -> bool)
      modifies this
      ensures form == old(form) && nameError == old(nameError) && lookups == old(lookups)
      ensures submitted == old(submitted) + (if ProductSchema.Valid(form, isUrl) then [form] else [])
      ensures toasts == old(toasts) + (if ProductSchema.Valid(form, isUrl) then [] else [FillRequiredMessage])
    {
      var data := CreateSubmission(form, isUrl);
      if data.Some? {
        submitted := submitted + [data.value];
      } else {
        toasts := toasts + [FillRequiredMessage];
      }
    }
  }
}
