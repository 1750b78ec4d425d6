# Invoicing backend: customers, invoices and their validation tables

This project models the request handlers of a small invoicing backend. The
backend keeps two tables. Customers have a name, optional contact fields
and a creation time. Invoices have a date, a description, an amount, an
optional note and a mandatory owning customer. The model covers:

- the customer handlers: a paginated listing with case-insensitive search
  over name, e-mail and phone, lookup by id with the customer's invoices,
  create, update, and a delete that is refused while the customer still
  owns invoices;
- the invoice handlers: a paginated listing searchable across description,
  note and the owner's name and filterable by owner, lookup by id with the
  full owner row, create and update (each re-checking the owner), delete,
  the statistics block (count, sum of amounts, the five latest invoices),
  and the download of an invoice document;
- the two request-validation tables that the router applies before the
  create and update handlers. They collect every failing rule with its
  message, without stopping at the first failure.

The store is a class `Store.Db`. It holds both tables as maps from id to
row, plus an auto-increment counter per table. Its invariant `Db.Valid`
says three things: rows sit under their own id, every invoice's owner
exists, and each counter is above every id in use. Read handlers are
functions of a snapshot of the tables (`Store.Tables`). Write handlers are
methods that change the database. Each write states:

- the exact new tables;
- that a refused request changes nothing;
- that `Db.Valid` is kept.

Responses use one envelope, `Envelope.Reply`: a success status and message
with a payload, or an error status and message with a list of field errors.

The library checks for e-mail addresses, mobile phone numbers, ISO 8601
dates and decimal numbers come in as a `Validator.Formats` record of
functions. Integer syntax is written out: `Text.ParseInteger` accepts an
optional sign followed by digits, the syntax that the integer check
accepts and `parseInt` reads back.

An update is not a full replacement of the row. An update that omits an
optional field (an address, a phone number, an e-mail address, a job
location, or an invoice note) passes `undefined` for it to the persistence
layer. That layer leaves the stored value as it is, so the field keeps its
old value instead of being cleared. `Store.Supplied` defines this rule.

## Model

| member | source | states |
|---|---|---|
| CustomerRoutes.CustomerValidation | backend/routes/customerRoutes.js:9-31 | every error reported is one of the table's six field messages, and at most six are reported |
| CustomerRoutes.ValidationPassesIffRulesHold | backend/routes/customerRoutes.js:9-31 | the error list is empty exactly when all of these hold: the name has at least 2 characters, the e-mail and phone pass their checks when present, the address has at most 500 characters and the job location at most 200 |
| CustomerRoutes.ReportedFields | backend/routes/customerRoutes.js:10-30 | for each of the five fields, the field appears among the errors exactly when its own rule fails |
| CustomerRoutes.NameMessages | backend/routes/customerRoutes.js:10-14 | a missing or empty name draws both the required and the length message; a one-character name draws the length message and not the required one |
| InvoiceRoutes.InvoiceValidation | backend/routes/invoiceRoutes.js:9-34 | every error reported is one of the table's nine field messages, and at most nine are reported |
| InvoiceRoutes.ValidationPassesIffRulesHold | backend/routes/invoiceRoutes.js:9-34 | the error list is empty exactly when all of these hold: the date is non-empty and ISO 8601; the description has 5 to 500 characters; the amount is non-empty and at least 0.01; the customer id is an integer of at least 1; the note has at most 1000 characters when present |
| InvoiceRoutes.ReportedFields | backend/routes/invoiceRoutes.js:10-33 | for each of the five fields, the field appears among the errors exactly when its own chain fails |
| InvoiceRoutes.FieldMessages | backend/routes/invoiceRoutes.js:10-33 | the messages each field draws: a non-empty value draws only its format message, and only when it fails the check; a missing or empty required field draws its required message, then its format message when the empty text fails the check too (always for the description and the customer id); the note draws its one message exactly when it is present and over 1000 characters |
| InvoiceRoutes.GroupedByField | backend/routes/invoiceRoutes.js:9-34 | the reported list is the date's errors, then the description's, the amount's, the customer id's and the note's, in table order |
| InvoiceRoutes.EmptyBodyAllMessages | backend/routes/invoiceRoutes.js:10-29 | when the ISO 8601 and float checks refuse the empty string, as the library's do, an empty body draws exactly the required and format messages of the four required fields, in table order |
| InvoiceRoutes.EmptyBodyMessages | backend/routes/invoiceRoutes.js:10-29 | an empty body draws the required message of every required field, each followed by its format message where the empty value fails the format check too, in table order |
| Text.ParseInteger | backend/routes/invoiceRoutes.js:28 | a value is read exactly when the text is digits with at most one leading sign |
| Text.IntRoundTrip | backend/controllers/invoiceController.js:108 | reading back the decimal text of any integer gives that integer |
| Text.ContainsIgnoresCase | backend/controllers/customerController.js:15-17 | the insensitive match does not depend on the letter case of the searched text or of the search |
| Text.EmptyNeedleMatches | backend/controllers/customerController.js:15-17 | an empty search text is contained in every text |
| Text.SplitJoin | backend/controllers/invoiceController.js:266-280 | splitting joined lines at the line break gives the lines back when none holds a line break |
| Query.PageQuery.Skip | backend/controllers/customerController.js:10-11 | definition of the offset: with page and limit defaulting to 1 and 10, the skip is (page - 1) * limit, which is not negative |
| Query.OrderDesc | backend/controllers/customerController.js:35 | the result lists every key of the map exactly once, with non-increasing sort keys |
| Query.Window | backend/controllers/customerController.js:24-25 | the page is at most take rows long, exactly as long as the rows left after the skip allow, and its i-th row is row skip + i |
| Query.PageCount | backend/controllers/customerController.js:48 | the page count is the least number of pages of limit rows that hold all total rows |
| Query.PagesPastTheEndAreEmpty | backend/controllers/customerController.js:24-25 | a page past the page count is empty |
| Query.OrderIsUnique | backend/controllers/customerController.js:34 | when no two rows share a sort key, every list of all rows, each once, with non-increasing keys is the model's order, so a store cannot return any other |
| Query.PrefixHoldsTop | backend/controllers/invoiceController.js:300-302 | a row left out of the first n rows of the order has a key no greater than the n-th row's |
| Query.SumInsert | backend/controllers/invoiceController.js:295-299 | adding a row to the summed column raises the sum by its value |
| Query.SumRemove | backend/controllers/invoiceController.js:295-299 | the sum is any one row's value plus the sum of the others |
| Query.SumReplace | backend/controllers/invoiceController.js:295-299 | replacing a row's value changes the sum by the difference |
| Store.Tables.OwnedBy | backend/controllers/customerController.js:175 | definition of ownership used by lookup and the delete guard: the invoices whose customer id is that customer |
| Store.Supplied | backend/controllers/customerController.js:147-156 | definition of the update rule for an optional field: a field the update carries is written, and a field it omits keeps its stored value |
| CustomerController.Matching | backend/controllers/customerController.js:13-19 | definition of the listing filter: the customers whose name, e-mail or phone contains the search, ignoring case, or all customers for an empty search |
| CustomerController.SearchFilterAgrees | backend/controllers/customerController.js:13-19 | skipping the filter for an empty search keeps exactly the rows the three `contains` filters would keep, so a row matches exactly when its name, e-mail or phone contains the search |
| CustomerController.SearchIgnoresCase | backend/controllers/customerController.js:15-17 | a search and its lower-case form match the same customers |
| CustomerController.GetAllCustomers | backend/controllers/customerController.js:8-51 | status 200; the page holds the rows at positions skip to skip + limit - 1 of all matching customers newest first; each row is the stored customer with its invoices' id, amount and date, distinct, createdAt non-increasing; total counts every match and pages is the page count |
| CustomerController.PageSize | backend/controllers/customerController.js:24-25 | the page holds limit rows, or the rows left after the skip, or none once the skip passes the last match |
| CustomerController.EmptySearchCountsAll | backend/controllers/customerController.js:13-19 | with an empty search, total is the number of customers |
| CustomerController.EveryMatchIsListed | backend/controllers/customerController.js:21-49 | when the matching customers' creation times are distinct, every matching customer is listed on some page between 1 and pages, and sits on that page of every descending order the store may return |
| CustomerController.OwnedInvoices | backend/controllers/customerController.js:64-67 | the included invoices are exactly the customer's invoices, each once, by date newest first |
| CustomerController.GetCustomerById | backend/controllers/customerController.js:58-85 | 404 "Customer not found" exactly for an unknown id; otherwise 200 with the stored customer and all of its invoices |
| CustomerController.CreateCustomer | backend/controllers/customerController.js:88-119 | validation errors give 400 with the list and no write; otherwise 201 and exactly one row is added, under a fresh id, carrying the five supplied fields, which a lookup then returns with no invoices |
| CustomerController.UpdateCustomer | backend/controllers/customerController.js:122-166 | validation errors give 400 and an unknown id gives 404, each with no write; otherwise only that row changes, to the supplied name and contact fields, with its createdAt kept |
| CustomerController.DeleteCustomer | backend/controllers/customerController.js:169-203 | an unknown id gives 404 and a customer still owning an invoice gives 400 "Cannot delete customer with existing invoices", each with no write; otherwise exactly that row is removed and a lookup then gives 404 |
| InvoiceController.Matching | backend/controllers/invoiceController.js:13-25 | definition of the listing filter: the invoices whose description, note or owner's name contains the search, ignoring case (all for an empty search), restricted to one owner under a customer filter |
| InvoiceController.GetAllInvoices | backend/controllers/invoiceController.js:8-62 | status 200; the page holds the rows at positions skip onwards of all matching invoices, latest date first; each row is the stored invoice with its owner's id, name, e-mail and phone, distinct, dates non-increasing; total counts every match and pages is the page count |
| InvoiceController.EveryMatchIsListed | backend/controllers/invoiceController.js:13-56 | when the matching invoices' dates are distinct, every matching invoice is listed on some page between 1 and pages, and sits on that page of every descending order the store may return |
| InvoiceController.PageSize | backend/controllers/invoiceController.js:28-31 | the page holds limit rows, or the rows left after the skip, or none once the skip passes the last match |
| InvoiceController.OwnerFilterCountsOwned | backend/controllers/invoiceController.js:23-25 | filtering by a customer without a search selects exactly that customer's invoices |
| InvoiceController.GetInvoiceById | backend/controllers/invoiceController.js:65-90 | 404 "Invoice not found" exactly for an unknown id; otherwise 200 with the stored invoice and its full owner row |
| InvoiceController.Latest | backend/controllers/invoiceController.js:300-302 | at most take invoices, fewer only when there are fewer, each once, dates non-increasing |
| InvoiceController.LatestAreLatest | backend/controllers/invoiceController.js:300-302 | an invoice that is left out is dated no later than the last one kept |
| InvoiceController.GetInvoiceStats | backend/controllers/invoiceController.js:291-324 | status 200; the count is the number of invoices and the total the sum of all amounts, 0 and an empty list when there are none; the recent list is the five latest invoices, each with its owner's name |
| InvoiceController.RecentAreLatest | backend/controllers/invoiceController.js:300-310 | no invoice outside the recent list is dated after the last one in it |
| InvoiceController.EmptyTotal | backend/controllers/invoiceController.js:317 | with no invoices the total amount is 0 |
| InvoiceController.TotalAfterInsert | backend/controllers/invoiceController.js:295-299 | adding an invoice raises the total amount by its amount |
| InvoiceController.TotalAfterReplace | backend/controllers/invoiceController.js:295-299 | replacing an invoice changes the total by the difference of the amounts |
| InvoiceController.TotalAfterRemove | backend/controllers/invoiceController.js:295-299 | removing an invoice lowers the total by its amount |
| InvoiceController.RowOf | backend/controllers/invoiceController.js:118-125 | the stored row carries the parsed date, the description, the parsed amount (at least 0.01) and the parsed customer id (at least 1) of a valid body |
| InvoiceController.CreateInvoice | backend/controllers/invoiceController.js:93-146 | validation errors give 400 and an unknown owner gives 404 "Customer not found", each with no write; otherwise 201, exactly one row is added under a fresh id, the count rises by one and the total by its amount |
| InvoiceController.UpdateInvoice | backend/controllers/invoiceController.js:149-215 | validation errors give 400, then an unknown invoice gives 404 "Invoice not found", then an unknown owner gives 404 "Customer not found", each with no write; otherwise only that row changes, to the supplied fields, and the total changes by the difference of the amounts |
| InvoiceController.DeleteInvoice | backend/controllers/invoiceController.js:218-244 | an unknown id gives 404 with no write; otherwise exactly that row is removed whoever owns it, the total drops by its amount, and a lookup then gives 404 |
| InvoiceController.DispositionRoundTrip | backend/controllers/invoiceController.js:283 | the id read back from the file name `invoice-<id>.pdf` is the downloaded invoice's id |
| InvoiceController.DispositionsDiffer | backend/controllers/invoiceController.js:283 | distinct invoices download under distinct file names |
| InvoiceController.OrNA | backend/controllers/invoiceController.js:270-277 | definition of the placeholder rule: an absent or empty field renders as N/A, and any other value as itself |
| InvoiceController.DownloadInvoice | backend/controllers/invoiceController.js:247-288 | 404 "Invoice not found" exactly for an unknown id; otherwise a document of type application/pdf whose file name names that invoice |
| InvoiceController.DocumentLines | backend/controllers/invoiceController.js:266-280 | when no rendered field contains a line break, reading the document line by line gives the report lines back: the invoice number, the owner with N/A for each missing contact field, the description, the amount and the note |
| Scenarios.JohnSmith | backend/controllers/invoiceController.js:118-142 | after creating the customer "John Smith" and an invoice of 2500.00 for him, the invoice lookup carries his name, and the statistics report one invoice totalling 2500.00 |
| Scenarios.DeleteGuard | backend/controllers/customerController.js:185-190 | deleting a customer who owns an invoice is refused with 400, and the same delete succeeds once that invoice is deleted |
| Scenarios.SingleFaults | backend/routes/invoiceRoutes.js:10-19 | in an otherwise valid invoice body, a three-character description draws only the length message, and a date that fails the ISO 8601 check draws only the date-format message |
| Scenarios.OneCharacterName | backend/routes/customerRoutes.js:13-14 | a one-character name draws only the minimum-length message |

## Left out

- The persistence layer and SQL are replaced by two in-memory maps. A new id is the table's counter value, which is fresh. The database schema is not part of this model.
- Request bodies are modelled as fields that are strings or absent. JSON `null`, numbers and other non-string values are not modelled, and neither are fields outside the validation tables.
- The e-mail, mobile-phone, ISO 8601 and decimal checks, and the date and amount parsing, are parameters (`Validator.Formats`). The model takes `parseFloat` to read a number from every text the decimal check accepts, and `new Date` to read a valid date from every text the ISO 8601 check accepts. The second is not so for every accepted text: a week date such as `2024-W01-1` passes the non-strict check, `new Date` reads it as an invalid date, and the store's write then fails into the error handler, where the model writes the row.
- `Text.ParseInteger` reads integers of any size, while `parseInt` of an id or a customer id loses precision above 2^53.
- Case-insensitive matching folds ASCII letters only. Unicode case folding is not modelled.
- Validation lengths count characters, not UTF-16 code units.
- Concurrent queries (`Promise.all`) are modelled as sequential reads of one snapshot of the tables.
- Amounts are exact reals. Floating-point rounding of amounts and of their sum is not modelled.
- Page and limit come in as integers. The coercion of query strings to numbers is not modelled.
- Path ids and the invoice listing's customer filter come in as integers. Text that `parseInt` cannot read, which ends in the error handler, is not modelled. An absent or empty customer filter is `None`.
- CustomerController.GetAllCustomers: requires page and limit of at least 1, because with a limit of 0 the page count divides by zero.
- InvoiceController.GetAllInvoices: requires page and limit of at least 1, for the same reason.
- CustomerController.GetAllCustomers: the model breaks ties between equal creation times by taking the smaller id first, while the code leaves their order to the database. The ensures give the model's order, `PageIds` of `ListingOrder`, so they fix an order among equal keys that the store does not promise; only the two EveryMatchIsListed lemmas hold for every order the store may return.
- InvoiceController.GetAllInvoices: the model breaks ties between equal dates by taking the smaller id first, while the code leaves their order to the database. The ensures give that order, so they fix an order among invoices with equal dates that the store does not promise.
- CustomerController.EveryMatchIsListed: requires that the matching customers' creation times are distinct. Each page is a separate query, and with ties the database may order equal keys differently from one query to the next, so a customer could appear on two pages or on none.
- InvoiceController.EveryMatchIsListed: requires that the matching invoices' dates are distinct, for the same reason.
- InvoiceController.GetInvoiceStats: the recent list is `Latest`, which lists invoices with equal dates by smaller id first. With a tie at the fifth place the model therefore fixes which invoice is listed, where the code leaves the choice to the database.
- CustomerController.GetCustomerById: the customer's invoices are `OwnedInvoices`, which lists invoices with equal dates by smaller id first, while the code's `orderBy: { date: 'desc' }` leaves their order to the database.
- Dates and creation times are modelled as comparable integers. `new Date(...)`, `toDateString()` and the amount's text rendering are parameters of the download.
- InvoiceController.DocumentLines: requires that no rendered field contains a line break. The validation tables accept a description or a note with a line break, and reading such a document line by line gives more lines than the template has.
- The "Generated on" day is a parameter of the download, because it reads the clock.
- The download's body is plain text under a PDF content type; no document encoding is modelled.
- Creation times come from a `now` parameter instead of the clock.
- The error handler reached by `next(error)`, the authentication middleware, the server wiring and the seed script are not part of this model.
