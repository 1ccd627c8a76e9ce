/** The create/edit product form: six controls with their validators, the
    error texts shown under them, the derived revision date, the
    asynchronous check that a new id is still free, and the submit flow that
    briefly enables the disabled controls to read the whole payload. */
module ProductForm {
  import opened Wrappers
  import opened Builtins
  import opened Dates
  import opened Products
  import Notifications
  import ProductService

  // ---------------------------------------------------------------------
  // Controls and their validators
  // ---------------------------------------------------------------------

  datatype Field = Id | Name | Description | Logo | DateRelease | DateRevision

  /** The order in which the form group was declared, which is the order
      its controls are visited in. */
  const FieldOrder: seq<Field> := [Id, Name, Description, Logo, DateRelease, DateRevision]

  /** The control name used in the form group and the template. */
  function NameOf(f: Field): string {
    match f
    case Id => "id"
    case Name => "name"
    case Description => "description"
    case Logo => "logo"
    case DateRelease => "date_release"
    case DateRevision => "date_revision"
  }

  /** `form.get(name)`: the control with that name, if there is one. */
  function FieldNamed(name: string): (r: Option<Field>)
    ensures r.Some? ==> NameOf(r.value) == name
  {
    if name == "id" then Some(Id)
    else if name == "name" then Some(Name)
    else if name == "description" then Some(Description)
    else if name == "logo" then Some(Logo)
    else if name == "date_release" then Some(DateRelease)
    else if name == "date_revision" then Some(DateRevision)
    else None
  }

  /** Every control can be found by its own name, and by no other. */
  lemma FieldNamedIff(name: string, f: Field)
    ensures FieldNamed(name) == Some(f) <==> name == NameOf(f)
  {
  }

  /** The `requiredLength`/`actualLength` pair of a length error. */
  datatype LengthError = LengthError(requiredLength: nat, actualLength: nat)

  /** The error object of a control; the control has errors exactly when
      this differs from `NoErrors`. */
  datatype Errors = Errors(
    required: bool,
    minLength: Option<LengthError>,
    maxLength: Option<LengthError>,
    idExists: bool)

  const NoErrors: Errors := Errors(false, None, None, false)

  /** What `setErrors({ idExists: true })` leaves on the id control. */
  const IdTaken: Errors := Errors(false, None, None, true)

  /** The form state of one control. */
  datatype Control = Control(value: string, disabled: bool, touched: bool, dirty: bool, errors: Errors)

  /** The validators a control was declared with. */
  datatype Rules = Rules(required: bool, minLength: Option<nat>, maxLength: Option<nat>)

  function RulesOf(f: Field): Rules {
    match f
    case Id => Rules(true, Some(3), Some(10))
    case Name => Rules(true, Some(5), Some(100))
    case Description => Rules(true, Some(10), Some(200))
    case Logo => Rules(true, None, None)
    case DateRelease => Rules(true, None, None)
    case DateRevision => Rules(false, None, None)
  }

  /** Running the validators of `f` on a value: `required` rejects the
      empty value, `minLength` lets the empty value through (it leaves that
      to `required`), and `maxLength` rejects anything longer. */
  function Validate(f: Field, value: string): Errors {
    var rules := RulesOf(f);
    Errors(
      rules.required && |value| == 0,
      if rules.minLength.Some? && 0 < |value| < rules.minLength.value
      then Some(LengthError(rules.minLength.value, |value|)) else None,
      if rules.maxLength.Some? && |value| > rules.maxLength.value
      then Some(LengthError(rules.maxLength.value, |value|)) else None,
      false)
  }

  /** The field rules as a table: id 3 to 10 characters, name 5 to 100,
      description 10 to 200, logo and release date present, revision date
      free. */
  predicate Acceptable(f: Field, value: string) {
    match f
    case Id => 3 <= |value| <= 10
    case Name => 5 <= |value| <= 100
    case Description => 10 <= |value| <= 200
    case Logo => |value| >= 1
    case DateRelease => |value| >= 1
    case DateRevision => true
  }

  /** The validators accept exactly the values the table allows. */
  lemma ValidateMatchesTable(f: Field, value: string)
    ensures Validate(f, value) == NoErrors <==> Acceptable(f, value)
  {
  }

  /** A value the validators reject carries exactly one kind of error:
      empty, too short or too long, never two at once. */
  lemma ValidationErrorsExclusive(f: Field, value: string)
    ensures var e := Validate(f, value);
            && !e.idExists
            && (e.required ==> e.minLength == None && e.maxLength == None)
            && (e.minLength.Some? ==> e.maxLength == None)
  {
  }

  /** The control is counted as invalid: it is enabled and has errors. A
      disabled control is never invalid. */
  predicate Invalid(c: Control) {
    !c.disabled && c.errors != NoErrors
  }

  /** The form group: one control per field. */
  datatype Form = Form(
    id: Control,
    name: Control,
    description: Control,
    logo: Control,
    dateRelease: Control,
    dateRevision: Control)
  {
    /** `form.get(...)` by field. */
    function Get(f: Field): Control {
      match f
      case Id => id
      case Name => name
      case Description => description
      case Logo => logo
      case DateRelease => dateRelease
      case DateRevision => dateRevision
    }

    /** The form with the control of `f` replaced. */
    function Set(f: Field, c: Control): Form {
      match f
      case Id => this.(id := c)
      case Name => this.(name := c)
      case Description => this.(description := c)
      case Logo => this.(logo := c)
      case DateRelease => this.(dateRelease := c)
      case DateRevision => this.(dateRevision := c)
    }
  }

  /** Replacing one control leaves every other control as it was. */
  lemma SetControls(form: Form, f: Field, c: Control)
    ensures form.Set(f, c).Get(f) == c
    ensures forall g :: g != f ==> form.Set(f, c).Get(g) == form.Get(g)
  {
    match f
    case Id =>
    case Name =>
    case Description =>
    case Logo =>
    case DateRelease =>
    case DateRevision =>
  }

  /** Two forms are equal when all their controls are. */
  lemma FormsEqual(a: Form, b: Form)
    requires forall f :: a.Get(f) == b.Get(f)
    ensures a == b
  {
    assert a.Get(Id) == b.Get(Id) && a.Get(Name) == b.Get(Name);
    assert a.Get(Description) == b.Get(Description) && a.Get(Logo) == b.Get(Logo);
    assert a.Get(DateRelease) == b.Get(DateRelease) && a.Get(DateRevision) == b.Get(DateRevision);
  }

  /** `productForm.invalid`: some enabled control has errors. */
  predicate FormInvalid(form: Form) {
    exists f :: Invalid(form.Get(f))
  }

  // ---------------------------------------------------------------------
  // Error display
  // ---------------------------------------------------------------------

  const RequiredText: string := "Este campo es requerido!"
  const IdTakenText: string := "ID no válido!"

  /** The text for an error object, the highest-priority error first:
      required, then the minimum length, then the maximum length, then a
      taken id; no text without errors. */
  function ErrorText(e: Errors): (r: string)
    ensures e.required ==> r == RequiredText
    ensures !e.required && e.minLength.Some?
            ==> r == "Mínimo " + NatToString(e.minLength.value.requiredLength) + " caracteres"
    ensures !e.required && e.minLength == None && e.maxLength.Some?
            ==> r == "Máximo " + NatToString(e.maxLength.value.requiredLength) + " caracteres"
    ensures !e.required && e.minLength == None && e.maxLength == None && e.idExists ==> r == IdTakenText
  {
    if e.required then RequiredText
    else if e.minLength.Some? then "Mínimo " + NatToString(e.minLength.value.requiredLength) + " caracteres"
    else if e.maxLength.Some? then "Máximo " + NatToString(e.maxLength.value.requiredLength) + " caracteres"
    else if e.idExists then IdTakenText
    else ""
  }

  /** Every error has a text: the text is empty exactly when there are no
      errors. */
  lemma ErrorTextIffErrors(e: Errors)
    ensures ErrorText(e) == "" <==> e == NoErrors
  {
  }

  /** `getErrorMessage(name)`: no text for an unknown control, otherwise
      the text of its errors. */
  function GetErrorMessage(form: Form, name: string): (r: string)
    ensures FieldNamed(name) == None ==> r == ""
    ensures FieldNamed(name).Some? ==> r == ErrorText(form.Get(FieldNamed(name).value).errors)
  {
    match FieldNamed(name)
    case None => ""
    case Some(f) => ErrorText(form.Get(f).errors)
  }

  /** `hasError(name)`: the control exists, is invalid, and the user has
      changed or left it. */
  predicate HasError(form: Form, name: string) {
    match FieldNamed(name)
    case None => false
    case Some(f) => Invalid(form.Get(f)) && (form.Get(f).dirty || form.Get(f).touched)
  }

  /** Whenever the template shows a field as erroneous, it has a message to
      show under it. */
  lemma ShownErrorHasMessage(form: Form, name: string)
    requires HasError(form, name)
    ensures GetErrorMessage(form, name) != ""
  {
    ErrorTextIffErrors(form.Get(FieldNamed(name).value).errors);
  }

  /** The messages of the id field, by length of the value. */
  lemma IdMessages(value: string)
    ensures var r := ErrorText(Validate(Id, value));
            && (|value| == 0 ==> r == RequiredText)
            && (0 < |value| < 3 ==> r == "Mínimo 3 caracteres")
            && (|value| > 10 ==> r == "Máximo 10 caracteres")
            && (3 <= |value| <= 10 ==> r == "")
  {
    assert NatToString(3) == "3";
    assert NatToString(10) == "10";
  }

  // ---------------------------------------------------------------------
  // Control state changes
  // ---------------------------------------------------------------------

  /** A control's errors agree with its state: none while disabled; while
      enabled, its validators' result or the taken-id error set on the id. */
  predicate Consistent(f: Field, c: Control) {
    if c.disabled then c.errors == NoErrors
    else c.errors == Validate(f, c.value) || (f == Id && c.errors == IdTaken)
  }

  /** The form as `initializeForm` builds it: every value empty, the
      revision date disabled, the other controls already validated. */
  function InitialForm(): Form {
    Form(
      Control("", false, false, false, Validate(Id, "")),
      Control("", false, false, false, Validate(Name, "")),
      Control("", false, false, false, Validate(Description, "")),
      Control("", false, false, false, Validate(Logo, "")),
      Control("", false, false, false, Validate(DateRelease, "")),
      Control("", true, false, false, NoErrors))
  }

  /** Every control of the initial form is empty, untouched and pristine,
      and only the revision date is disabled. */
  lemma InitialFormControls(f: Field)
    ensures var c := InitialForm().Get(f);
            c.value == "" && !c.touched && !c.dirty && (c.disabled <==> f == DateRevision)
  {
    match f
    case Id =>
    case Name =>
    case Description =>
    case Logo =>
    case DateRelease =>
    case DateRevision =>
  }

  /** `setValue`/`patchValue` on one control: the value changes and, while
      the control is enabled, its validators run again. Neither marks the
      control dirty or touched. */
  function WithValue(f: Field, c: Control, value: string): (r: Control)
    ensures Consistent(f, c) ==> Consistent(f, r)
    ensures r.value == value && r.disabled == c.disabled && r.touched == c.touched && r.dirty == c.dirty
    ensures !c.disabled ==> r.errors == Validate(f, value)
  {
    c.(value := value, errors := if c.disabled then c.errors else Validate(f, value))
  }

  /** `enable()`: the validators run on the current value. */
  function Enabled(f: Field, c: Control): (r: Control)
    ensures !r.disabled && Consistent(f, r) && r.value == c.value
  {
    c.(disabled := false, errors := Validate(f, c.value))
  }

  /** `disable()`: a disabled control has no errors. */
  function Disabled(c: Control): (r: Control)
    ensures r.disabled && r.errors == NoErrors && r.value == c.value
  {
    c.(disabled := true, errors := NoErrors)
  }

  /** Enabling and disabling again gives the control back as it was when it
      was disabled to begin with. */
  lemma EnableThenDisable(f: Field, c: Control)
    requires Consistent(f, c) && c.disabled
    ensures Disabled(Enabled(f, c)) == c
  {
  }

  /** `markAsTouched` on every control. */
  function AllTouched(form: Form): Form {
    Form(
      form.id.(touched := true),
      form.name.(touched := true),
      form.description.(touched := true),
      form.logo.(touched := true),
      form.dateRelease.(touched := true),
      form.dateRevision.(touched := true))
  }

  /** Marking all touched changes nothing but the touched flags. */
  lemma AllTouchedControls(form: Form, f: Field)
    ensures AllTouched(form).Get(f) == form.Get(f).(touched := true)
  {
    match f
    case Id =>
    case Name =>
    case Description =>
    case Logo =>
    case DateRelease =>
    case DateRevision =>
  }

  /** After every control is marked touched, every invalid control shows
      its error. */
  lemma TouchedShowsAllErrors(form: Form, f: Field)
    requires Invalid(form.Get(f))
    ensures HasError(AllTouched(form), NameOf(f))
  {
    FieldNamedIff(NameOf(f), f);
    AllTouchedControls(form, f);
  }

  /** One control after `reset()`, `markAsUntouched` and `markAsPristine`:
      value cleared, untouched and pristine, still disabled if it was, and
      validated again if it is enabled. */
  function ResetControl(f: Field, c: Control): (r: Control)
    ensures r.value == "" && !r.touched && !r.dirty && r.disabled == c.disabled
    ensures Consistent(f, r)
  {
    Control("", c.disabled, false, false, if c.disabled then NoErrors else Validate(f, ""))
  }

  /** `reset()` on the whole form. */
  function ResetForm(form: Form): Form {
    Form(
      ResetControl(Id, form.id),
      ResetControl(Name, form.name),
      ResetControl(Description, form.description),
      ResetControl(Logo, form.logo),
      ResetControl(DateRelease, form.dateRelease),
      ResetControl(DateRevision, form.dateRevision))
  }

  /** The reset acts on each control separately. */
  lemma ResetFormControls(form: Form, f: Field)
    ensures ResetForm(form).Get(f) == ResetControl(f, form.Get(f))
  {
    match f
    case Id =>
    case Name =>
    case Description =>
    case Logo =>
    case DateRelease =>
    case DateRevision =>
  }

  /** After a reset nothing is shown as erroneous, yet a form whose name
      control is enabled cannot be submitted. */
  lemma ResetHidesErrorsButBlocksSubmit(form: Form, name: string)
    requires !form.name.disabled
    ensures !HasError(ResetForm(form), name)
    ensures FormInvalid(ResetForm(form))
  {
    assert Invalid(ResetForm(form).Get(Name));
    if FieldNamed(name).Some? {
      ResetFormControls(form, FieldNamed(name).value);
    }
  }

  /** A reset also empties a disabled id, which cannot be typed into again.
      In edit mode an update submitted after a reset therefore carries an
      empty id in its body while its URL still names the edited product. */
  lemma UpdateAfterResetClearsBodyId(form: Form, baseUrl: string, productId: string)
    requires form.id.disabled && productId != ""
    ensures ResetForm(form).id.disabled && ResetForm(form).id.value == ""
    ensures var request := ProductService.UpdateProduct(baseUrl, productId, Payload(ResetForm(form)));
            && request.url == baseUrl + "/products/" + productId
            && request.body.Some? && request.body.value.id == "" != productId
  {
  }

  /** `form.value`: the values of the enabled controls only. */
  function FormValue(form: Form): (r: map<Field, string>)
    ensures forall f :: f in r <==> !form.Get(f).disabled
    ensures forall f :: f in r ==> r[f] == form.Get(f).value
  {
    map f | f in FieldOrder && !form.Get(f).disabled :: form.Get(f).value
  }

  /** The value read as `ProductFormData`; it needs every field. */
  function ToFormData(value: map<Field, string>): ProductFormData
    requires forall f :: f in value
  {
    ProductFormData(value[Id], value[Name], value[Description], value[Logo],
                    value[DateRelease], value[DateRevision])
  }

  /** The payload of a submit: every control's value, enabled or not. */
  function Payload(form: Form): ProductFormData {
    ProductFormData(form.id.value, form.name.value, form.description.value, form.logo.value,
                    form.dateRelease.value, form.dateRevision.value)
  }

  /** Once every control is enabled, `form.value` holds the whole payload. */
  lemma EnabledFormValue(form: Form)
    requires forall f :: !form.Get(f).disabled
    ensures forall f :: f in FormValue(form)
    ensures ToFormData(FormValue(form)) == Payload(form)
  {
    var v := FormValue(form);
    assert v[Id] == form.id.value && v[Name] == form.name.value && v[Description] == form.description.value;
    assert v[Logo] == form.logo.value && v[DateRelease] == form.dateRelease.value;
    assert v[DateRevision] == form.dateRevision.value;
  }

  /** The product field a control is patched from. */
  function ProductField(p: Product, f: Field): string {
    match f
    case Id => p.id
    case Name => p.name
    case Description => p.description
    case Logo => p.logo
    case DateRelease => p.date_release
    case DateRevision => p.date_revision
  }

  /** The product as the payload of an update. */
  function AsFormData(p: Product): ProductFormData {
    ProductFormData(p.id, p.name, p.description, p.logo, p.date_release, p.date_revision)
  }

  /** A form holding the product's values submits the product as it was. */
  lemma LoadedFormSubmitsProduct(form: Form, p: Product)
    requires forall f :: form.Get(f).value == ProductField(p, f)
    ensures Payload(form) == AsFormData(p)
  {
    assert form.Get(Id).value == p.id && form.Get(Name).value == p.name;
    assert form.Get(Description).value == p.description && form.Get(Logo).value == p.logo;
    assert form.Get(DateRelease).value == p.date_release && form.Get(DateRevision).value == p.date_revision;
  }

  // ---------------------------------------------------------------------
  // Derived values
  // ---------------------------------------------------------------------

  /** `!!productId`: edit mode needs a present, non-empty route id. */
  predicate EditModeFor(productId: Option<string>) {
    productId.Some? && productId.value != ""
  }

  /** `calculateRevisionDate`: the release date one year later, printed as
      `YYYY-MM-DD`. An unreadable date gives nothing, since printing an
      invalid date throws. */
  function CalculateRevisionDate(releaseDate: string): (r: Option<string>)
    ensures r.Some? <==> ParseIso(releaseDate).Some?
  {
    match ParseIso(releaseDate)
    case Some(d) => Some(FormatIso(NextYear(d)))
    case None => None
  }

  /** Apart from 29 February, the revision date is the same day and month
      one year later, and reading it back gives that date. */
  lemma RevisionIsOneYearLater(releaseDate: string)
    requires ParseIso(releaseDate).Some?
    ensures var d := ParseIso(releaseDate).value;
            !(d.month == 2 && d.day == 29) && d.year + 1 <= 9999
            ==> && CalculateRevisionDate(releaseDate) == Some(FormatIso(Date(d.year + 1, d.month, d.day)))
                && ParseIso(CalculateRevisionDate(releaseDate).value) == Some(Date(d.year + 1, d.month, d.day))
  {
    var d := ParseIso(releaseDate).value;
    if !(d.month == 2 && d.day == 29) && d.year + 1 <= 9999 {
      NextYearKeepsMonthAndDay(d);
      FormatThenParse(NextYear(d));
    }
  }

  /** The revision date of 29 February is 1 March of the next year. */
  lemma RevisionOfLeapDay(releaseDate: string)
    requires ParseIso(releaseDate).Some?
    requires ParseIso(releaseDate).value.month == 2 && ParseIso(releaseDate).value.day == 29
    ensures CalculateRevisionDate(releaseDate) == Some(FormatIso(Date(ParseIso(releaseDate).value.year + 1, 3, 1)))
  {
    var d := ParseIso(releaseDate).value;
    NextYearOfLeapDay(d);
    assert CalculateRevisionDate(releaseDate) == Some(FormatIso(NextYear(d)));
  }

  /** The guard of `validateId`: only a new product, with a value whose
      trimmed length is within the id bounds, is checked. */
  predicate ChecksId(isEditMode: bool, value: string) {
    !isEditMode && value != "" && 3 <= |Trim(value)| <= 10
  }

  /** The id sent for verification is trimmed on both sides and within the
      id bounds, so it always passes the id validators itself. */
  lemma CheckedIdIsAcceptable(isEditMode: bool, value: string)
    requires ChecksId(isEditMode, value)
    ensures Acceptable(Id, Trim(value))
    ensures Trim(value) != [] && !IsWhiteSpace(Trim(value)[0]) && !IsWhiteSpace(Trim(value)[|Trim(value)| - 1])
  {
    TrimShape(value);
  }

  /** The form invariant: only the id and the revision date are ever
      disabled, the revision date always is, and every control's errors
      agree with its state. */
  predicate WellFormed(form: Form) {
    && form.dateRevision.disabled
    && !form.name.disabled && !form.description.disabled && !form.logo.disabled && !form.dateRelease.disabled
    && Consistent(Id, form.id) && Consistent(Name, form.name) && Consistent(Description, form.description)
    && Consistent(Logo, form.logo) && Consistent(DateRelease, form.dateRelease)
    && Consistent(DateRevision, form.dateRevision)
  }

  /** The freshly built form is well formed, and it cannot be submitted
      before the required fields are filled in. */
  lemma InitialFormIsBlocked()
    ensures WellFormed(InitialForm())
    ensures FormInvalid(InitialForm())
  {
    assert Invalid(InitialForm().Get(Id));
  }

  /** What the `date_release` value-change subscription does to the form:
      a non-empty, readable release date puts its revision date into the
      revision control (without emitting further events); anything else
      leaves the form as it was. Only the revision value can change. */
  function AfterReleaseDateChange(form: Form, releaseDate: string): (r: Form)
    ensures r.(dateRevision := form.dateRevision) == form
    ensures r.dateRevision == form.dateRevision.(value := r.dateRevision.value)
    ensures releaseDate != "" && CalculateRevisionDate(releaseDate).Some?
            ==> r.dateRevision.value == CalculateRevisionDate(releaseDate).value
    ensures releaseDate == "" || CalculateRevisionDate(releaseDate) == None ==> r == form
  {
    if releaseDate == "" then form
    else match CalculateRevisionDate(releaseDate)
      case Some(revision) => form.(dateRevision := form.dateRevision.(value := revision))
      case None => form
  }

  /** The form after a loaded product is patched into it, control by
      control, and the id is then disabled. */
  function LoadedForm(form: Form, p: Product): Form {
    Form(
      Disabled(WithValue(Id, form.id, p.id)),
      WithValue(Name, form.name, p.name),
      WithValue(Description, form.description, p.description),
      WithValue(Logo, form.logo, p.logo),
      WithValue(DateRelease, form.dateRelease, p.date_release),
      WithValue(DateRevision, form.dateRevision, p.date_revision))
  }

  /** After loading, every control holds the product's value; the id is
      disabled, and every other control keeps its state apart from its
      value (and its errors, when it is enabled). */
  lemma LoadedFormControls(form: Form, p: Product, f: Field)
    ensures LoadedForm(form, p).Get(f).value == ProductField(p, f)
    ensures f == Id ==> LoadedForm(form, p).Get(f) == Disabled(form.id.(value := p.id))
    ensures f != Id ==> LoadedForm(form, p).Get(f) == WithValue(f, form.Get(f), ProductField(p, f))
  {
    match f
    case Id =>
    case Name =>
    case Description =>
    case Logo =>
    case DateRelease =>
    case DateRevision =>
  }

  // ---------------------------------------------------------------------
  // The component
  // ---------------------------------------------------------------------

  class ProductFormComponent {
    var productForm: Form
    var isSubmitting: bool
    var isEditMode: bool
    var productId: Option<string>
    /** The router commands issued so far. */
    var navigations: seq<seq<string>>
    const notifier: Notifications.NotificationService
    const baseUrl: string

    ghost predicate Valid()
      reads this, notifier
    {
      && notifier.Valid()
      && WellFormed(productForm)
      && (isEditMode <==> EditModeFor(productId))
      && (productForm.id.disabled ==> isEditMode)
    }

    /** The form is built up front, where the source leaves it undefined
        until `ngOnInit`; `NgOnInit` rebuilds it before anything reads it. */
    constructor (notifier: Notifications.NotificationService, baseUrl: string)
      requires notifier.Valid()
      ensures Valid() && this.notifier == notifier && this.baseUrl == baseUrl
      ensures productForm == InitialForm()
      ensures !isSubmitting && !isEditMode && productId == None && navigations == []
    {
      this.notifier := notifier;
      this.baseUrl := baseUrl;
      productForm := InitialForm();
      isSubmitting := false;
      isEditMode := false;
      productId := None;
      navigations := [];
      InitialFormIsBlocked();
    }

    /** `checkEditMode`: take the route's `id` parameter. */
    method CheckEditMode(routeId: Option<string>)
      modifies this`productId, this`isEditMode
      ensures productId == routeId
      ensures isEditMode <==> routeId.Some? && routeId.value != ""
    {
      productId := routeId;
      isEditMode := routeId.Some? && routeId.value != "";
    }

    /** `initializeForm`. */
    method InitializeForm()
      modifies this`productForm
      ensures productForm == InitialForm()
    {
      productForm := InitialForm();
    }

    /** `ngOnInit`: decide the mode, build the form, and in edit mode
        request the product. */
    method NgOnInit(routeId: Option<string>) returns (request: Option<ProductService.Request>)
      requires Valid()
      modifies this
      ensures Valid()
      ensures productId == routeId && (isEditMode <==> EditModeFor(routeId))
      ensures productForm == InitialForm()
      ensures EditModeFor(routeId) ==> request == Some(ProductService.GetProductById(baseUrl, routeId.value))
      ensures !EditModeFor(routeId) ==> request == None
      ensures isSubmitting == old(isSubmitting) && navigations == old(navigations)
    {
      CheckEditMode(routeId);
      InitializeForm();
      InitialFormIsBlocked();
      request := None;
      if isEditMode && productId.Some? && productId.value != "" {
        request := Some(ProductService.GetProductById(baseUrl, productId.value));
      }
    }

    /** The `date_release` value-change subscription. */
    method OnReleaseDateChanged(releaseDate: string)
      requires WellFormed(productForm)
      modifies this`productForm
      ensures WellFormed(productForm)
      ensures productForm == AfterReleaseDateChange(old(productForm), releaseDate)
    {
      if releaseDate != "" {
        var revision := CalculateRevisionDate(releaseDate);
        if revision.Some? {
          productForm := productForm.(dateRevision := WithValue(DateRevision, productForm.dateRevision, revision.value));
        }
      }
    }

    /** `setValue` on one control, followed by the subscription when the
        control is the release date. */
    method SetValue(f: Field, value: string)
      requires WellFormed(productForm)
      modifies this`productForm
      ensures WellFormed(productForm)
      ensures f != DateRelease ==> productForm == old(productForm).Set(f, WithValue(f, old(productForm).Get(f), value))
      ensures f == DateRelease ==> productForm == AfterReleaseDateChange(old(productForm).(dateRelease := WithValue(f, old(productForm).dateRelease, value)), value)
    {
      productForm := productForm.Set(f, WithValue(f, productForm.Get(f), value));
      if f == DateRelease {
        OnReleaseDateChanged(value);
      }
    }

    /** The user types into an enabled control: it becomes dirty, takes the
        new value and is validated again. */
    method Input(f: Field, value: string)
      requires Valid() && !productForm.Get(f).disabled
      modifies this`productForm
      ensures Valid()
      ensures var typed := old(productForm).Set(f, old(productForm).Get(f).(value := value, dirty := true, errors := Validate(f, value)));
              productForm == if f == DateRelease then AfterReleaseDateChange(typed, value) else typed
    {
      productForm := productForm.Set(f, productForm.Get(f).(dirty := true));
      SetValue(f, value);
    }

    /** The user leaves a control: it becomes touched. */
    method Blur(f: Field)
      requires Valid()
      modifies this`productForm
      ensures Valid()
      ensures productForm == old(productForm).Set(f, old(productForm).Get(f).(touched := true))
    {
      productForm := productForm.Set(f, productForm.Get(f).(touched := true));
    }

    /** `patchValue(product)`: every control in declaration order, the
        release date's subscription running when its turn comes. The
        product's own revision date is patched after it and wins. */
    method PatchValue(p: Product)
      requires WellFormed(productForm)
      modifies this`productForm
      ensures WellFormed(productForm)
      ensures productForm.(id := Disabled(productForm.id)) == LoadedForm(old(productForm), p)
    {
      ghost var before := productForm;
      SetValue(Id, p.id);
      SetValue(Name, p.name);
      SetValue(Description, p.description);
      SetValue(Logo, p.logo);
      ghost var half := productForm;
      assert half.(dateRelease := before.dateRelease, dateRevision := before.dateRevision)
          == LoadedForm(before, p).(id := half.id, dateRelease := before.dateRelease, dateRevision := before.dateRevision);
      SetValue(DateRelease, p.date_release);
      SetValue(DateRevision, p.date_revision);
    }

    /** The product to edit arrived: patch it into the form, then disable
        the id. */
    method OnProductLoaded(p: Product)
      requires Valid() && isEditMode
      modifies this`productForm
      ensures Valid()
      ensures productForm == LoadedForm(old(productForm), p)
    {
      PatchValue(p);
      productForm := productForm.(id := Disabled(productForm.id));
    }

    /** The product could not be loaded: report it and go back to the list. */
    method OnProductLoadFailed(message: string)
      requires Valid()
      modifies this`navigations, notifier
      ensures Valid()
      ensures notifier.notifications == old(notifier.notifications)
              + [Notifications.MakeNotification(notifier.counter,
                   Notifications.ShortcutOptions(Notifications.Error, "Error al cargar el producto: " + message, None))]
      ensures navigations == old(navigations) + [["/"]]
    {
      notifier.Error("Error al cargar el producto: " + message, None);
      navigations := navigations + [["/"]];
    }

    /** `validateId`: the verification request for the trimmed id when the
        guard lets it through, and nothing otherwise. No state changes. */
    method ValidateId() returns (request: Option<ProductService.Request>)
      requires Valid()
      ensures request.Some? <==> ChecksId(isEditMode, productForm.id.value)
      ensures request.Some? ==> request.value == ProductService.VerifyProductId(baseUrl, Trim(productForm.id.value))
    {
      if isEditMode {
        return None;
      }
      var value := productForm.id.value;
      if value == "" {
        return None;
      }
      var id := Trim(value);
      if |id| < 3 || |id| > 10 {
        return None;
      }
      request := Some(ProductService.VerifyProductId(baseUrl, id));
    }

    /** The verification answered. Only a `true` answer marks the id as
        taken; `false` and a failed request change nothing. */
    method OnIdVerified(answer: Result<bool, string>)
      requires Valid() && !isEditMode
      modifies this`productForm
      ensures Valid()
      ensures answer == Success(true) ==> productForm == old(productForm).(id := old(productForm).id.(errors := IdTaken))
      ensures answer != Success(true) ==> productForm == old(productForm)
    {
      if answer == Success(true) {
        productForm := productForm.(id := productForm.id.(errors := IdTaken));
      }
    }

    /** `markFormGroupTouched`: visit the controls in declaration order and
        mark each touched. */
    method MarkFormGroupTouched()
      modifies this`productForm
      ensures productForm == AllTouched(old(productForm))
    {
      var i := 0;
      while i < |FieldOrder|
        invariant 0 <= i <= |FieldOrder|
        invariant forall f :: productForm.Get(f)
                    == if f in FieldOrder[..i] then old(productForm).Get(f).(touched := true) else old(productForm).Get(f)
      {
        var f := FieldOrder[i];
        SetControls(productForm, f, productForm.Get(f).(touched := true));
        productForm := productForm.Set(f, productForm.Get(f).(touched := true));
        assert FieldOrder[..i + 1] == FieldOrder[..i] + [f];
        i := i + 1;
      }
      assert FieldOrder[..i] == FieldOrder;
      forall f ensures productForm.Get(f) == AllTouched(old(productForm)).Get(f) {
        AllTouchedControls(old(productForm), f);
      }
      FormsEqual(productForm, AllTouched(old(productForm)));
    }

    /** Which save is issued: an update when editing an existing id. */
    predicate Updating()
      reads this
    {
      isEditMode && EditModeFor(productId)
    }

    /** The part of `onSubmit` that reads the payload: enable the revision
        date, and the id when it is disabled, read `form.value`, then
        disable them again. The payload holds every field, and the controls
        end exactly as they were. */
    method ReadPayload() returns (formData: ProductFormData)
      requires WellFormed(productForm)
      modifies this`productForm
      ensures productForm == old(productForm)
      ensures formData == Payload(productForm)
    {
      ghost var before := productForm;
      productForm := productForm.(dateRevision := Enabled(DateRevision, productForm.dateRevision));
      var wasIdDisabled := productForm.id.disabled;
      if wasIdDisabled {
        productForm := productForm.(id := Enabled(Id, productForm.id));
      }
      EnabledFormValue(productForm);
      formData := ToFormData(FormValue(productForm));
      productForm := productForm.(dateRevision := Disabled(productForm.dateRevision));
      if wasIdDisabled {
        productForm := productForm.(id := Disabled(productForm.id));
      }
      EnableThenDisable(DateRevision, before.dateRevision);
      if wasIdDisabled {
        EnableThenDisable(Id, before.id);
      }
    }

    /** `onSubmit`. An invalid form is all marked touched, one error is
        reported, and nothing is sent. A valid one is submitted with the
        payload `ReadPayload` reads, and the controls end as they were; the
        payload goes to an update in edit mode and to a create otherwise. */
    method OnSubmit() returns (request: Option<ProductService.Request>)
      requires Valid()
      modifies this, notifier
      ensures Valid()
      ensures FormInvalid(old(productForm)) ==>
                && request == None
                && productForm == AllTouched(old(productForm))
                && isSubmitting == old(isSubmitting)
                && notifier.notifications == old(notifier.notifications)
                   + [Notifications.MakeNotification(notifier.counter,
                        Notifications.ShortcutOptions(Notifications.Error, "Por favor complete todos los campos correctamente", None))]
      ensures !FormInvalid(old(productForm)) ==>
                && productForm == old(productForm)
                && isSubmitting
                && unchanged(notifier)
                && request == Some(if Updating() then ProductService.UpdateProduct(baseUrl, productId.value, Payload(productForm))
                                   else ProductService.CreateProduct(baseUrl, Payload(productForm)))
      ensures isEditMode == old(isEditMode) && productId == old(productId) && navigations == old(navigations)
    {
      if FormInvalid(productForm) {
        MarkFormGroupTouched();
        notifier.Error("Por favor complete todos los campos correctamente", None);
        return None;
      }
      isSubmitting := true;
      var formData := ReadPayload();
      if isEditMode && productId.Some? && productId.value != "" {
        request := Some(ProductService.UpdateProduct(baseUrl, productId.value, formData));
      } else {
        request := Some(ProductService.CreateProduct(baseUrl, formData));
      }
    }

    /** The save succeeded: report it, stop submitting, go back to the list. */
    method OnSaveSucceeded()
      requires Valid()
      modifies this`isSubmitting, this`navigations, notifier
      ensures Valid()
      ensures notifier.notifications == old(notifier.notifications)
              + [Notifications.MakeNotification(notifier.counter,
                   Notifications.ShortcutOptions(Notifications.Success,
                     if Updating() then "Producto actualizado exitosamente" else "Producto creado exitosamente", None))]
      ensures !isSubmitting && navigations == old(navigations) + [["/"]]
    {
      if isEditMode && productId.Some? && productId.value != "" {
        notifier.Success("Producto actualizado exitosamente", None);
      } else {
        notifier.Success("Producto creado exitosamente", None);
      }
      isSubmitting := false;
      navigations := navigations + [["/"]];
    }

    /** The save failed: report it and stop submitting; the form stays. */
    method OnSaveFailed(message: string)
      requires Valid()
      modifies this`isSubmitting, notifier
      ensures Valid()
      ensures notifier.notifications == old(notifier.notifications)
              + [Notifications.MakeNotification(notifier.counter,
                   Notifications.ShortcutOptions(Notifications.Error,
                     (if Updating() then "Error al actualizar el producto: " else "Error al crear el producto: ") + message, None))]
      ensures !isSubmitting
    {
      if isEditMode && productId.Some? && productId.value != "" {
        notifier.Error("Error al actualizar el producto: " + message, None);
      } else {
        notifier.Error("Error al crear el producto: " + message, None);
      }
      isSubmitting := false;
    }

    /** `onReset`. */
    method OnReset()
      requires Valid()
      modifies this`productForm
      ensures Valid()
      ensures productForm == ResetForm(old(productForm))
    {
      productForm := ResetForm(productForm);
    }
  }
}
