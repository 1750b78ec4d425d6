/** The `customerValidation` rule table, run by the router before the
    create (POST) and update (PUT) handlers and by no other route. */
module CustomerRoutes {
  import opened Wrappers
  import opened Envelope
  import opened Validator

  /** The writable fields of a customer request body; `None` is a field
      the body does not carry. */
  datatype CustomerBody = CustomerBody(
    name: Option<string>,
    address: Option<string>,
    phone: Option<string>,
    email: Option<string>,
    jobLocation: Option<string>)

  const NameRequired := FieldError("name", "Customer name is required")
  const NameTooShort := FieldError("name", "Customer name must be at least 2 characters long")
  const EmailInvalid := FieldError("email", "Please provide a valid email address")
  const PhoneInvalid := FieldError("phone", "Please provide a valid phone number")
  const AddressTooLong := FieldError("address", "Address must not exceed 500 characters")
  const JobLocationTooLong := FieldError("jobLocation", "Job location must not exceed 200 characters")

  /** The `name` chain: `notEmpty`, then `isLength({ min: 2 })`. */
  function NameErrors(name: Option<string>): seq<FieldError>
  {
    var v := ValueOf(name);
    (if !NotEmpty(v) then [NameRequired] else []) + (if |v| < 2 then [NameTooShort] else [])
  }

  /** An `optional()` chain with one check: nothing is reported for a
      missing field. */
  function OptionalRule(field: Option<string>, passes: bool, error: FieldError): seq<FieldError>
  {
    if field.Some? && !passes then [error] else []
  }

  /** The `email` chain: `optional()`, `isEmail()`. */
  function EmailErrors(f: Formats, email: Option<string>): seq<FieldError>
  {
    OptionalRule(email, email.Some? && f.isEmail(email.value), EmailInvalid)
  }

  /** The `phone` chain: `optional()`, `isMobilePhone()`. */
  function PhoneErrors(f: Formats, phone: Option<string>): seq<FieldError>
  {
    OptionalRule(phone, phone.Some? && f.isMobilePhone(phone.value), PhoneInvalid)
  }

  /** The `address` chain: `optional()`, `isLength({ max: 500 })`. */
  function AddressErrors(address: Option<string>): seq<FieldError>
  {
    OptionalRule(address, address.Some? && |address.value| <= 500, AddressTooLong)
  }

  /** The `jobLocation` chain: `optional()`, `isLength({ max: 200 })`. */
  function JobLocationErrors(jobLocation: Option<string>): seq<FieldError>
  {
    OptionalRule(jobLocation, jobLocation.Some? && |jobLocation.value| <= 200, JobLocationTooLong)
  }

  /** Every rule of the table, top to bottom, every failing rule reported
      (the chains do not stop at their first failure). */
  function CustomerValidation(f: Formats, b: CustomerBody): (errors: seq<FieldError>)
    ensures forall e :: e in errors ==>
      e in [NameRequired, NameTooShort, EmailInvalid, PhoneInvalid, AddressTooLong, JobLocationTooLong]
    ensures |errors| <= 6
  {
    NameErrors(b.name) + EmailErrors(f, b.email) + PhoneErrors(f, b.phone)
    + AddressErrors(b.address) + JobLocationErrors(b.jobLocation)
  }

  /** What a valid customer body is: a name of at least two characters, and
      each optional field, when present, well formed. */
  predicate CustomerRulesHold(f: Formats, b: CustomerBody)
  {
    && b.name.Some? && |b.name.value| >= 2
    && (b.email.Some? ==> f.isEmail(b.email.value))
    && (b.phone.Some? ==> f.isMobilePhone(b.phone.value))
    && (b.address.Some? ==> |b.address.value| <= 500)
    && (b.jobLocation.Some? ==> |b.jobLocation.value| <= 200)
  }

  /** The write proceeds exactly when every rule holds. */
  lemma ValidationPassesIffRulesHold(f: Formats, b: CustomerBody)
    ensures CustomerValidation(f, b) == [] <==> CustomerRulesHold(f, b)
  {
  }

  lemma FieldsOfValidation(f: Formats, b: CustomerBody)
    ensures Fields(CustomerValidation(f, b))
      == Fields(NameErrors(b.name)) + Fields(EmailErrors(f, b.email)) + Fields(PhoneErrors(f, b.phone))
       + Fields(AddressErrors(b.address)) + Fields(JobLocationErrors(b.jobLocation))
  {
    var p1 := NameErrors(b.name);
    var p2 := EmailErrors(f, b.email);
    var p3 := PhoneErrors(f, b.phone);
    var p4 := AddressErrors(b.address);
    var p5 := JobLocationErrors(b.jobLocation);
    FieldsAppend(p1, p2);
    FieldsAppend(p1 + p2, p3);
    FieldsAppend(p1 + p2 + p3, p4);
    FieldsAppend(p1 + p2 + p3 + p4, p5);
  }

  lemma NameFields(name: Option<string>)
    ensures Fields(NameErrors(name)) == if name.None? || |name.value| < 2 then {"name"} else {}
  {
  }

  lemma OptionalFields(field: Option<string>, passes: bool, error: FieldError)
    ensures Fields(OptionalRule(field, passes, error)) == if field.Some? && !passes then {error.field} else {}
  {
  }

  /** A field is reported exactly when its own rule fails. */
  lemma ReportedFields(f: Formats, b: CustomerBody)
    ensures "name" in Fields(CustomerValidation(f, b)) <==> (b.name.None? || |b.name.value| < 2)
    ensures "email" in Fields(CustomerValidation(f, b)) <==> (b.email.Some? && !f.isEmail(b.email.value))
    ensures "phone" in Fields(CustomerValidation(f, b)) <==> (b.phone.Some? && !f.isMobilePhone(b.phone.value))
    ensures "address" in Fields(CustomerValidation(f, b)) <==> (b.address.Some? && |b.address.value| > 500)
    ensures "jobLocation" in Fields(CustomerValidation(f, b)) <==> (b.jobLocation.Some? && |b.jobLocation.value| > 200)
  {
    FieldsOfValidation(f, b);
    NameFields(b.name);
    OptionalFields(b.email, b.email.Some? && f.isEmail(b.email.value), EmailInvalid);
    OptionalFields(b.phone, b.phone.Some? && f.isMobilePhone(b.phone.value), PhoneInvalid);
    OptionalFields(b.address, b.address.Some? && |b.address.value| <= 500, AddressTooLong);
    OptionalFields(b.jobLocation, b.jobLocation.Some? && |b.jobLocation.value| <= 200, JobLocationTooLong);
    FiveChains(
      "name", Fields(NameErrors(b.name)), b.name.None? || |b.name.value| < 2,
      "email", Fields(EmailErrors(f, b.email)), b.email.Some? && !f.isEmail(b.email.value),
      "phone", Fields(PhoneErrors(f, b.phone)), b.phone.Some? && !f.isMobilePhone(b.phone.value),
      "address", Fields(AddressErrors(b.address)), b.address.Some? && |b.address.value| > 500,
      "jobLocation", Fields(JobLocationErrors(b.jobLocation)), b.jobLocation.Some? && |b.jobLocation.value| > 200);
  }

  /** A missing or empty name draws both of its rule's messages; a
      one-character name draws only the minimum-length one. */
  lemma NameMessages(f: Formats, b: CustomerBody)
    ensures (b.name.None? || b.name.value == "") ==> CustomerValidation(f, b)[..2] == [NameRequired, NameTooShort]
    ensures (b.name.Some? && |b.name.value| == 1) ==> CustomerValidation(f, b)[0] == NameTooShort
    ensures (b.name.Some? && |b.name.value| == 1) ==> NameRequired !in CustomerValidation(f, b)
  {
  }
}
