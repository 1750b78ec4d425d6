/** End-to-end runs of the handlers on a fresh database: the owner name
    carried into an invoice lookup and the statistics, and the delete guard
    lifting once the last invoice is gone. */
module Scenarios {
  import opened Wrappers
  import opened Text
  import opened Envelope
  import opened Validator
  import opened CustomerRoutes
  import opened InvoiceRoutes
  import opened Store
  import opened CustomerController
  import opened InvoiceController

  const SmithBody := CustomerBody(Some("John Smith"), None, None, None, None)

  function WebsiteInvoice(customerId: int): InvoiceBody
  {
    InvoiceBody(Some("2024-01-15"), Some("Website Development Services"), Some("2500.00"), None,
                Some(IntToDecimal(customerId)))
  }

  /** The date and amount of the scenario parse as such. */
  predicate ParsesScenario(f: Formats)
  {
    f.isoDate("2024-01-15").Some? && f.decimal("2500.00") == Some(2500.0)
  }

  lemma BodiesAreValid(f: Formats, customerId: int)
    requires ParsesScenario(f) && customerId >= 1
    ensures CustomerValidation(f, SmithBody) == []
    ensures InvoiceValidation(f, WebsiteInvoice(customerId)) == []
    ensures OwnerOf(f, WebsiteInvoice(customerId)) == customerId
  {
    CustomerRoutes.ValidationPassesIffRulesHold(f, SmithBody);
    IntRoundTrip(customerId);
    InvoiceRoutes.ValidationPassesIffRulesHold(f, WebsiteInvoice(customerId));
  }

  /** Create "John Smith", bill him 2500.00, then look the invoice up and
      read the statistics. */
  method JohnSmith(f: Formats, now: int) returns (detail: Reply<InvoiceDetail>, stats: Reply<Stats>)
    requires ParsesScenario(f)
    ensures detail.Ok? && detail.data.customer.name == "John Smith"
    ensures detail.data.invoice.amount == 2500.0
    ensures detail.data.invoice.description == "Website Development Services"
    ensures stats.Ok? && stats.data.totalInvoices == 1 && stats.data.totalAmount == 2500.0
    ensures |stats.data.recentInvoices| == 1 && stats.data.recentInvoices[0].customerName == "John Smith"
  {
    var db := new Db();
    EmptyTotal(db.Snapshot());
    BodiesAreValid(f, 1);
    var c := CreateCustomer(db, f, SmithBody, now);
    var cid := c.data.id;
    BodiesAreValid(f, cid);
    var body := WebsiteInvoice(cid);
    var created := CreateInvoice(db, f, body, now);
    var iid := created.data.invoice.id;
    assert db.invoices == map[iid := created.data.invoice];
    detail := GetInvoiceById(db.Snapshot(), iid);
    stats := GetInvoiceStats(db.Snapshot());
  }

  /** A customer who owns an invoice cannot be deleted; once the invoice is
      deleted, the same delete succeeds. */
  method DeleteGuard(f: Formats, now: int) returns (refused: Reply<()>, removed: Reply<()>, accepted: Reply<()>)
    requires ParsesScenario(f)
    ensures refused == Err(400, HasInvoices, [])
    ensures removed == Ok(200, InvoiceDeleted, ())
    ensures accepted == Ok(200, CustomerDeleted, ())
  {
    var db := new Db();
    BodiesAreValid(f, 1);
    var c := CreateCustomer(db, f, SmithBody, now);
    var cid := c.data.id;
    BodiesAreValid(f, cid);
    var created := CreateInvoice(db, f, WebsiteInvoice(cid), now);
    var iid := created.data.invoice.id;
    assert iid in db.Snapshot().OwnedBy(cid);
    refused := DeleteCustomer(db, cid);
    removed := DeleteInvoice(db, iid);
    assert db.invoices == map[];
    accepted := DeleteCustomer(db, cid);
  }

  /** A one-character name fails the minimum-length rule alone. */
  lemma OneCharacterName(f: Formats)
    ensures CustomerValidation(f, CustomerBody(Some("A"), None, None, None, None)) == [NameTooShort]
  {
  }

  /** In an otherwise valid invoice body, a three-character description
      draws the length message alone, and a date the ISO 8601 check refuses
      draws the date-format message alone. */
  lemma SingleFaults(f: Formats, customerId: int)
    requires ParsesScenario(f) && customerId >= 1
    ensures InvoiceValidation(f, WebsiteInvoice(customerId).(description := Some("abc"))) == [DescriptionLength]
    ensures f.isoDate("abc").None? ==>
      InvoiceValidation(f, WebsiteInvoice(customerId).(date := Some("abc"))) == [DateInvalid]
  {
    BodiesAreValid(f, customerId);
  }
}
