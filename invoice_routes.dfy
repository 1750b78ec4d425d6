/** The `invoiceValidation` rule table, run by the router before the
    create (POST) and update (PUT) handlers; listing, lookup, statistics,
    download and delete are not validated. */
module InvoiceRoutes {
  import opened Wrappers
  import opened Text
  import opened Envelope
  import opened Validator
  import CustomerRoutes

  /** The writable fields of an invoice request body, as sent; `None` is a
      field the body does not carry. */
  datatype InvoiceBody = InvoiceBody(
    date: Option<string>,
    description: Option<string>,
    amount: Option<string>,
    note: Option<string>,
    customerId: Option<string>)

  const DateRequired := FieldError("date", "Invoice date is required")
  const DateInvalid := FieldError("date", "Please provide a valid date")
  const DescriptionRequired := FieldError("description", "Description is required")
  const DescriptionLength := FieldError("description", "Description must be between 5 and 500 characters")
  const AmountRequired := FieldError("amount", "Amount is required")
  const AmountInvalid := FieldError("amount", "Amount must be a positive number")
  const CustomerIdRequired := FieldError("customerId", "Customer ID is required")
  const CustomerIdInvalid := FieldError("customerId", "Customer ID must be a valid integer")
  const NoteTooLong := FieldError("note", "Note must not exceed 1000 characters")

  const MinAmount: real := 0.01

  /** A required chain: `notEmpty`, then one check; both are reported when
      both fail. */
  function RequiredRule(field: Option<string>, passes: bool, required: FieldError, invalid: FieldError): seq<FieldError>
  {
    (if !NotEmpty(ValueOf(field)) then [required] else []) + (if !passes then [invalid] else [])
  }

  predicate DateOk(f: Formats, v: string) { f.isoDate(v).Some? }

  predicate DescriptionOk(v: string) { 5 <= |v| <= 500 }

  predicate AmountOk(f: Formats, v: string) { IsFloatAtLeast(f, v, MinAmount) }

  predicate CustomerIdOk(v: string) { IsIntAtLeast(v, 1) }

  /** The `date` chain: `notEmpty`, `isISO8601`. */
  function DateErrors(f: Formats, date: Option<string>): seq<FieldError>
  {
    RequiredRule(date, DateOk(f, ValueOf(date)), DateRequired, DateInvalid)
  }

  /** The `description` chain: `notEmpty`, `isLength({ min: 5, max: 500 })`. */
  function DescriptionErrors(description: Option<string>): seq<FieldError>
  {
    RequiredRule(description, DescriptionOk(ValueOf(description)), DescriptionRequired, DescriptionLength)
  }

  /** The `amount` chain: `notEmpty`, `isFloat({ min: 0.01 })`. */
  function AmountErrors(f: Formats, amount: Option<string>): seq<FieldError>
  {
    RequiredRule(amount, AmountOk(f, ValueOf(amount)), AmountRequired, AmountInvalid)
  }

  /** The `customerId` chain: `notEmpty`, `isInt({ min: 1 })`. */
  function CustomerIdErrors(customerId: Option<string>): seq<FieldError>
  {
    RequiredRule(customerId, CustomerIdOk(ValueOf(customerId)), CustomerIdRequired, CustomerIdInvalid)
  }

  /** The `note` chain: `optional()`, `isLength({ max: 1000 })`. */
  function NoteErrors(note: Option<string>): seq<FieldError>
  {
    CustomerRoutes.OptionalRule(note, note.Some? && |note.value| <= 1000, NoteTooLong)
  }

  /** Every rule of the table, top to bottom, every failing rule reported. */
  function InvoiceValidation(f: Formats, b: InvoiceBody): (errors: seq<FieldError>)
    ensures forall e :: e in errors ==>
      e in [DateRequired, DateInvalid, DescriptionRequired, DescriptionLength, AmountRequired,
            AmountInvalid, CustomerIdRequired, CustomerIdInvalid, NoteTooLong]
    ensures |errors| <= 9
  {
    DateErrors(f, b.date)
    + DescriptionErrors(b.description)
    + AmountErrors(f, b.amount)
    + CustomerIdErrors(b.customerId)
    + NoteErrors(b.note)
  }

  /** What a valid invoice body is: a non-empty ISO 8601 date, a description
      of 5 to 500 characters, a non-empty amount of at least 0.01, a
      customer id that is an integer of at least 1, and a note of at most
      1000 characters when there is one. */
  predicate InvoiceRulesHold(f: Formats, b: InvoiceBody)
  {
    && b.date.Some? && b.date.value != "" && f.isoDate(b.date.value).Some?
    && b.description.Some? && 5 <= |b.description.value| <= 500
    && b.amount.Some? && b.amount.value != ""
    && f.decimal(b.amount.value).Some? && f.decimal(b.amount.value).value >= 0.01
    && b.customerId.Some? && ParseInteger(b.customerId.value).Some?
    && ParseInteger(b.customerId.value).value >= 1
    && (b.note.Some? ==> |b.note.value| <= 1000)
  }

  /** The write proceeds exactly when every rule holds. */
  lemma ValidationPassesIffRulesHold(f: Formats, b: InvoiceBody)
    ensures InvoiceValidation(f, b) == [] <==> InvoiceRulesHold(f, b)
  {
  }

  lemma RequiredFields(field: Option<string>, passes: bool, required: FieldError, invalid: FieldError)
    requires required.field == invalid.field
    ensures Fields(RequiredRule(field, passes, required, invalid))
      == if !NotEmpty(ValueOf(field)) || !passes then {required.field} else {}
  {
  }

  lemma FieldsOfValidation(f: Formats, b: InvoiceBody)
    ensures Fields(InvoiceValidation(f, b))
      == Fields(DateErrors(f, b.date)) + Fields(DescriptionErrors(b.description))
       + Fields(AmountErrors(f, b.amount)) + Fields(CustomerIdErrors(b.customerId))
       + Fields(NoteErrors(b.note))
  {
    var p1 := DateErrors(f, b.date);
    var p2 := DescriptionErrors(b.description);
    var p3 := AmountErrors(f, b.amount);
    var p4 := CustomerIdErrors(b.customerId);
    var p5 := NoteErrors(b.note);
    FieldsAppend(p1, p2);
    FieldsAppend(p1 + p2, p3);
    FieldsAppend(p1 + p2 + p3, p4);
    FieldsAppend(p1 + p2 + p3 + p4, p5);
  }

  /** A field is reported exactly when its own rule fails. */
  lemma ReportedFields(f: Formats, b: InvoiceBody)
    ensures "date" in Fields(InvoiceValidation(f, b))
      <==> (!NotEmpty(ValueOf(b.date)) || !DateOk(f, ValueOf(b.date)))
    ensures "description" in Fields(InvoiceValidation(f, b))
      <==> (!NotEmpty(ValueOf(b.description)) || !DescriptionOk(ValueOf(b.description)))
    ensures "amount" in Fields(InvoiceValidation(f, b))
      <==> (!NotEmpty(ValueOf(b.amount)) || !AmountOk(f, ValueOf(b.amount)))
    ensures "customerId" in Fields(InvoiceValidation(f, b))
      <==> (!NotEmpty(ValueOf(b.customerId)) || !CustomerIdOk(ValueOf(b.customerId)))
    ensures "note" in Fields(InvoiceValidation(f, b))
      <==> (b.note.Some? && |b.note.value| > 1000)
  {
    FieldsOfValidation(f, b);
    RequiredFields(b.date, DateOk(f, ValueOf(b.date)), DateRequired, DateInvalid);
    RequiredFields(b.description, DescriptionOk(ValueOf(b.description)), DescriptionRequired, DescriptionLength);
    RequiredFields(b.amount, AmountOk(f, ValueOf(b.amount)), AmountRequired, AmountInvalid);
    RequiredFields(b.customerId, CustomerIdOk(ValueOf(b.customerId)), CustomerIdRequired, CustomerIdInvalid);
    CustomerRoutes.OptionalFields(b.note, b.note.Some? && |b.note.value| <= 1000, NoteTooLong);
    FiveChains(
      "date", Fields(DateErrors(f, b.date)), !NotEmpty(ValueOf(b.date)) || !DateOk(f, ValueOf(b.date)),
      "description", Fields(DescriptionErrors(b.description)),
      !NotEmpty(ValueOf(b.description)) || !DescriptionOk(ValueOf(b.description)),
      "amount", Fields(AmountErrors(f, b.amount)), !NotEmpty(ValueOf(b.amount)) || !AmountOk(f, ValueOf(b.amount)),
      "customerId", Fields(CustomerIdErrors(b.customerId)),
      !NotEmpty(ValueOf(b.customerId)) || !CustomerIdOk(ValueOf(b.customerId)),
      "note", Fields(NoteErrors(b.note)), b.note.Some? && |b.note.value| > 1000);
  }

  /** The list is the errors of each field, field after field in table
      order. */
  lemma GroupedByField(f: Formats, b: InvoiceBody)
    ensures var e := InvoiceValidation(f, b);
      e == ErrorsFor(e, "date") + ErrorsFor(e, "description") + ErrorsFor(e, "amount")
         + ErrorsFor(e, "customerId") + ErrorsFor(e, "note")
  {
    OwnChains(f, b);
  }

  /** Which messages each field draws. A non-empty value draws its format
      message alone, and only when it fails the check; a missing or empty
      required field draws its required message, followed by its format
      message where the empty text fails the check too (always so for the
      description and the customer id); an over-long note draws its one
      message. */
  lemma FieldMessages(f: Formats, b: InvoiceBody)
    ensures var e := InvoiceValidation(f, b); var v := ValueOf(b.date);
      ErrorsFor(e, "date")
        == if NotEmpty(v) then (if DateOk(f, v) then [] else [DateInvalid])
           else [DateRequired] + (if DateOk(f, v) then [] else [DateInvalid])
    ensures var e := InvoiceValidation(f, b); var v := ValueOf(b.description);
      ErrorsFor(e, "description")
        == if NotEmpty(v) then (if DescriptionOk(v) then [] else [DescriptionLength])
           else [DescriptionRequired, DescriptionLength]
    ensures var e := InvoiceValidation(f, b); var v := ValueOf(b.amount);
      ErrorsFor(e, "amount")
        == if NotEmpty(v) then (if AmountOk(f, v) then [] else [AmountInvalid])
           else [AmountRequired] + (if AmountOk(f, v) then [] else [AmountInvalid])
    ensures var e := InvoiceValidation(f, b); var v := ValueOf(b.customerId);
      ErrorsFor(e, "customerId")
        == if NotEmpty(v) then (if CustomerIdOk(v) then [] else [CustomerIdInvalid])
           else [CustomerIdRequired, CustomerIdInvalid]
    ensures ErrorsFor(InvoiceValidation(f, b), "note")
      == if b.note.Some? && |b.note.value| > 1000 then [NoteTooLong] else []
  {
    OwnChains(f, b);
    assert !DescriptionOk("") && !CustomerIdOk("");
  }

  /** Each field's errors in the whole list are those of its own chain. */
  lemma OwnChains(f: Formats, b: InvoiceBody)
    ensures ErrorsFor(InvoiceValidation(f, b), "date") == DateErrors(f, b.date)
    ensures ErrorsFor(InvoiceValidation(f, b), "description") == DescriptionErrors(b.description)
    ensures ErrorsFor(InvoiceValidation(f, b), "amount") == AmountErrors(f, b.amount)
    ensures ErrorsFor(InvoiceValidation(f, b), "customerId") == CustomerIdErrors(b.customerId)
    ensures ErrorsFor(InvoiceValidation(f, b), "note") == NoteErrors(b.note)
  {
    var p1 := DateErrors(f, b.date);
    var p2 := DescriptionErrors(b.description);
    var p3 := AmountErrors(f, b.amount);
    var p4 := CustomerIdErrors(b.customerId);
    var p5 := NoteErrors(b.note);
    RequiredRuleField(b.date, DateOk(f, ValueOf(b.date)), DateRequired, DateInvalid);
    RequiredRuleField(b.description, DescriptionOk(ValueOf(b.description)), DescriptionRequired, DescriptionLength);
    RequiredRuleField(b.amount, AmountOk(f, ValueOf(b.amount)), AmountRequired, AmountInvalid);
    RequiredRuleField(b.customerId, CustomerIdOk(ValueOf(b.customerId)), CustomerIdRequired, CustomerIdInvalid);
    assert forall e :: e in p5 ==> e.field == "note";
    FiveSelect(p1, p2, p3, p4, p5, "date", "description", "amount", "customerId", "note");
  }

  /** A required chain reports on its own field only. */
  lemma RequiredRuleField(field: Option<string>, passes: bool, required: FieldError, invalid: FieldError)
    requires required.field == invalid.field
    ensures forall e :: e in RequiredRule(field, passes, required, invalid) ==> e.field == required.field
  {
  }

  /** A body without any of the required fields draws both messages of
      each required chain, in table order. */
  lemma EmptyBodyMessages(f: Formats)
    ensures InvoiceValidation(f, InvoiceBody(None, None, None, None, None))
      == [DateRequired] + (if f.isoDate("").Some? then [] else [DateInvalid])
       + [DescriptionRequired, DescriptionLength]
       + [AmountRequired] + (if AmountOk(f, "") then [] else [AmountInvalid])
       + [CustomerIdRequired, CustomerIdInvalid]
  {
  }

  /** With checks that refuse the empty string, as the library's do, an
      empty body draws exactly the two messages of each required chain. */
  lemma EmptyBodyAllMessages(f: Formats)
    requires RejectsEmpty(f)
    ensures InvoiceValidation(f, InvoiceBody(None, None, None, None, None))
      == [DateRequired, DateInvalid, DescriptionRequired, DescriptionLength,
          AmountRequired, AmountInvalid, CustomerIdRequired, CustomerIdInvalid]
  {
    EmptyBodyMessages(f);
  }
}
