/** The customer handlers: a paginated, searchable listing, lookup by id,
    create, update, and a delete that refuses while the customer still owns
    invoices. Read handlers are functions of the tables; write handlers are
    methods on the database, each run after the route's validation table
    where the router applies it. */
module CustomerController {
  import opened Wrappers
  import opened Text
  import opened Query
  import opened Envelope
  import opened Validator
  import opened CustomerRoutes
  import opened Store

  const CustomerNotFound := "Customer not found"
  const HasInvoices := "Cannot delete customer with existing invoices"
  const CustomerCreated := "Customer created successfully"
  const CustomerUpdated := "Customer updated successfully"
  const CustomerDeleted := "Customer deleted successfully"

  /** The listing's filter: with a non-empty search, the name, e-mail or
      phone contains it, ignoring case; an empty search keeps every row. */
  predicate Matches(c: Customer, search: string)
  {
    search == "" || ContainsInsensitive(c.name, search)
    || ColumnContains(c.email, search) || ColumnContains(c.phone, search)
  }

  /** Skipping the filter for an empty search keeps the rows the `OR` of
      the three `contains` filters would keep: every name contains the
      empty text. */
  lemma SearchFilterAgrees(c: Customer, search: string)
    ensures Matches(c, search)
      <==> ContainsInsensitive(c.name, search) || ColumnContains(c.email, search) || ColumnContains(c.phone, search)
  {
    if search == "" {
      EmptyNeedleMatches(c.name);
    }
  }

  /** The letter case of the search does not change which rows match. */
  lemma SearchIgnoresCase(c: Customer, search: string)
    ensures Matches(c, search) <==> Matches(c, FoldAll(search))
  {
    FoldedNeedle(c.name, search);
    if c.email.Some? {
      FoldedNeedle(c.email.value, search);
    }
    if c.phone.Some? {
      FoldedNeedle(c.phone.value, search);
    }
  }

  /** The ids of the customers the filter keeps. */
  function Matching(t: Tables, search: string): (ids: set<int>)
    ensures forall id :: id in ids <==> id in t.customers && Matches(t.customers[id], search)
  {
    set id | id in t.customers && Matches(t.customers[id], search)
  }

  /** The sort key of the listing, creation time, for the rows `ids`. */
  function CreatedAt(t: Tables, ids: set<int>): (k: map<int, int>)
    requires ids <= t.customers.Keys
    ensures k.Keys == ids
    ensures forall id :: id in ids ==> k[id] == t.customers[id].createdAt
  {
    map id | id in ids :: t.customers[id].createdAt
  }

  /** Every matching customer, newest first: what the listing pages through. */
  function ListingOrder(t: Tables, search: string): seq<int>
  {
    OrderDesc(CreatedAt(t, Matching(t, search)))
  }

  /** The projection of an owned invoice that the listing includes. */
  datatype InvoiceBrief = InvoiceBrief(id: int, amount: real, date: int)

  /** A listed customer with its invoices (the include has no ordering, so
      they form a set). */
  datatype CustomerListItem = CustomerListItem(customer: Customer, invoices: set<InvoiceBrief>)

  datatype CustomerList = CustomerList(customers: seq<CustomerListItem>, pagination: Pagination)

  /** A customer with every invoice it owns, newest invoice date first. */
  datatype CustomerDetail = CustomerDetail(customer: Customer, invoices: seq<Invoice>)

  function Briefs(t: Tables, cid: int): (bs: set<InvoiceBrief>)
    ensures forall id :: id in t.OwnedBy(cid) ==>
      InvoiceBrief(id, t.invoices[id].amount, t.invoices[id].date) in bs
    ensures forall b :: b in bs ==>
      (b.id in t.OwnedBy(cid) && b == InvoiceBrief(b.id, t.invoices[b.id].amount, t.invoices[b.id].date))
  {
    set id | id in t.OwnedBy(cid) :: InvoiceBrief(id, t.invoices[id].amount, t.invoices[id].date)
  }

  function ListItem(t: Tables, id: int): CustomerListItem
    requires id in t.customers
  {
    CustomerListItem(t.customers[id], Briefs(t, id))
  }

  /** The ids on the requested page: `limit` rows of the listing order
      after skipping `(page - 1) * limit`. */
  function PageIds(t: Tables, q: PageQuery): (ids: seq<int>)
    requires q.WellFormed()
    ensures |ids| <= q.Limit()
    ensures forall i :: 0 <= i < |ids| ==>
      q.Skip() + i < |ListingOrder(t, q.Search())| && ids[i] == ListingOrder(t, q.Search())[q.Skip() + i]
  {
    var order := ListingOrder(t, q.Search());
    var w := Window(order, q.Skip(), q.Limit());
    assert forall i :: 0 <= i < |w| ==> w[i] == order[q.Skip() + i];
    w
  }

  /** A page holds distinct matching customers, newest first. */
  lemma PageDescending(t: Tables, q: PageQuery)
    requires t.Valid() && q.WellFormed()
    ensures forall i :: 0 <= i < |PageIds(t, q)| ==>
      && PageIds(t, q)[i] in t.customers
      && t.customers[PageIds(t, q)[i]].id == PageIds(t, q)[i]
      && Matches(t.customers[PageIds(t, q)[i]], q.Search())
    ensures forall i, j :: 0 <= i < j < |PageIds(t, q)| ==>
      && PageIds(t, q)[i] != PageIds(t, q)[j]
      && t.customers[PageIds(t, q)[i]].createdAt >= t.customers[PageIds(t, q)[j]].createdAt
  {
    var page := PageIds(t, q);
    var k := CreatedAt(t, Matching(t, q.Search()));
    var order := ListingOrder(t, q.Search());
    forall i | 0 <= i < |page|
      ensures page[i] in t.customers && t.customers[page[i]].id == page[i]
      ensures Matches(t.customers[page[i]], q.Search())
    {
      assert page[i] == order[q.Skip() + i];
    }
    forall i, j | 0 <= i < j < |page|
      ensures page[i] != page[j] && t.customers[page[i]].createdAt >= t.customers[page[j]].createdAt
    {
      assert page[i] == order[q.Skip() + i] && page[j] == order[q.Skip() + j];
      assert k[page[i]] >= k[page[j]];
    }
  }

  /** `GET /customers`: one page of the matching customers, newest first,
      and the pagination block. */
  function GetAllCustomers(t: Tables, q: PageQuery): (r: Reply<CustomerList>)
    requires t.Valid() && q.WellFormed()
    ensures r.Ok? && r.status == 200
    ensures |r.data.customers| == |PageIds(t, q)|
    ensures var total := |Matching(t, q.Search())|;
      r.data.pagination == Pagination(q.Page(), q.Limit(), total, PageCount(total, q.Limit()))
    ensures forall i :: 0 <= i < |r.data.customers| ==>
      var c := r.data.customers[i].customer;
      && c.id == PageIds(t, q)[i]
      && c.id in t.customers && t.customers[c.id] == c
      && Matches(c, q.Search())
      && r.data.customers[i].invoices == Briefs(t, c.id)
    ensures forall i, j :: 0 <= i < j < |r.data.customers| ==>
      && r.data.customers[i].customer.id != r.data.customers[j].customer.id
      && r.data.customers[i].customer.createdAt >= r.data.customers[j].customer.createdAt
  {
    PageDescending(t, q);
    var search := q.Search();
    var ids := Matching(t, search);
    var page := PageIds(t, q);
    var items := seq(|page|, i requires 0 <= i < |page| => ListItem(t, page[i]));
    Ok(200, "", CustomerList(items, Pagination(q.Page(), q.Limit(), |ids|, PageCount(|ids|, q.Limit()))))
  }

  /** The page holds `limit` rows, or what is left after the skipped ones,
      or none once the skip passes the last match. */
  lemma PageSize(t: Tables, q: PageQuery)
    requires t.Valid() && q.WellFormed()
    ensures var total := |Matching(t, q.Search())|;
      |GetAllCustomers(t, q).data.customers|
        == if q.Skip() >= total then 0
           else if total - q.Skip() < q.Limit() then total - q.Skip() else q.Limit()
  {
    assert |ListingOrder(t, q.Search())| == |Matching(t, q.Search())|;
  }

  /** An empty search counts every customer. */
  lemma EmptySearchCountsAll(t: Tables)
    ensures Matching(t, "") == t.customers.Keys
    ensures |Matching(t, "")| == |t.customers|
  {
    assert Matching(t, "") == t.customers.Keys;
  }

  /** Paging through the listing reaches every matching customer: each
      appears on one of the first `pages` pages. Each page is a query of
      its own, and the store orders rows with equal creation times as it
      likes, so the lemma requires the matching customers' creation times
      are distinct. The customer is then on that page of every order the
      store may return, not only of `ListingOrder`. */
  lemma EveryMatchIsListed(t: Tables, search: string, limit: int, id: int)
    requires t.Valid() && limit >= 1
    requires DistinctKeys(CreatedAt(t, Matching(t, search)))
    requires id in t.customers && Matches(t.customers[id], search)
    ensures exists page :: (1 <= page <= PageCount(|Matching(t, search)|, limit) &&
      Listed(GetAllCustomers(t, PageQuery(Some(page), Some(limit), Some(search))), id) &&
      forall r :: SortedDesc(CreatedAt(t, Matching(t, search)), r) ==> OnPage(r, page, limit, id))
  {
    var page := PageOf(t, search, limit, id);
    EveryOrderAgrees(t, search, limit, page, id);
  }

  /** With distinct creation times, a row on a page of the listing order is on
      that page of every order the store may return. */
  lemma EveryOrderAgrees(t: Tables, search: string, limit: int, page: int, id: int)
    requires limit >= 1 && page >= 1
    requires DistinctKeys(CreatedAt(t, Matching(t, search)))
    requires OnPage(ListingOrder(t, search), page, limit, id)
    ensures forall r :: SortedDesc(CreatedAt(t, Matching(t, search)), r) ==> OnPage(r, page, limit, id)
  {
    var k := CreatedAt(t, Matching(t, search));
    assert ListingOrder(t, search) == OrderDesc(k);
    forall r | SortedDesc(k, r) ensures OnPage(r, page, limit, id) {
      OrderIsUnique(k, r);
    }
  }

  /** The page of the listing that holds the matching customer `id`. */
  lemma PageOf(t: Tables, search: string, limit: int, id: int) returns (page: int)
    requires t.Valid() && limit >= 1
    requires id in t.customers && Matches(t.customers[id], search)
    ensures 1 <= page <= PageCount(|Matching(t, search)|, limit)
    ensures Listed(GetAllCustomers(t, PageQuery(Some(page), Some(limit), Some(search))), id)
    ensures OnPage(ListingOrder(t, search), page, limit, id)
  {
    var i;
    page, i := ListingPosition(t, search, limit, id);
    ListedOnPage(t, search, limit, page, i, id);
    OnPageAt(ListingOrder(t, search), page, limit, i);
  }

  /** Where the matching row `id` sits in the listing order: position `i`
      of page `page`. */
  lemma ListingPosition(t: Tables, search: string, limit: int, id: int) returns (page: int, i: int)
    requires limit >= 1
    requires id in t.customers && Matches(t.customers[id], search)
    ensures 1 <= page <= PageCount(|Matching(t, search)|, limit)
    ensures 0 <= i < limit && 0 <= (page - 1) * limit + i < |ListingOrder(t, search)|
    ensures ListingOrder(t, search)[(page - 1) * limit + i] == id
  {
    var j := IndexInOrder(t, search, id);
    page, i := PlaceOnPage(ListingOrder(t, search), limit, j);
  }

  lemma IndexInOrder(t: Tables, search: string, id: int) returns (j: int)
    requires id in t.customers && Matches(t.customers[id], search)
    ensures |ListingOrder(t, search)| == |Matching(t, search)|
    ensures 0 <= j < |ListingOrder(t, search)| && ListingOrder(t, search)[j] == id
  {
    var order := ListingOrder(t, search);
    assert id in CreatedAt(t, Matching(t, search));
    j :| 0 <= j < |order| && order[j] == id;
  }

  lemma ListedOnPage(t: Tables, search: string, limit: int, page: int, i: int, id: int)
    requires t.Valid() && limit >= 1 && page >= 1
    requires 0 <= i < limit && 0 <= (page - 1) * limit + i < |ListingOrder(t, search)|
    requires ListingOrder(t, search)[(page - 1) * limit + i] == id
    ensures Listed(GetAllCustomers(t, PageQuery(Some(page), Some(limit), Some(search))), id)
  {
    var q := PageQuery(Some(page), Some(limit), Some(search));
    SkipOf(page, limit, search);
    PositionIsListed(t, q, i, id);
  }

  /** The row at position `skip + i` of the listing order is on the page
      that starts at `skip`, for every `i` below the page size. */
  lemma PositionIsListed(t: Tables, q: PageQuery, i: int, id: int)
    requires t.Valid() && q.WellFormed()
    requires 0 <= i < q.Limit() && q.Skip() + i < |ListingOrder(t, q.Search())|
    requires ListingOrder(t, q.Search())[q.Skip() + i] == id
    ensures Listed(GetAllCustomers(t, q), id)
  {
    var r := GetAllCustomers(t, q);
    var w := Window(ListingOrder(t, q.Search()), q.Skip(), q.Limit());
    assert 0 <= i < |w|;
    assert r.data.customers[i].customer.id == id;
  }

  /** The page `r` lists the customer `id`. */
  predicate Listed(r: Reply<CustomerList>, id: int)
  {
    r.Ok? && exists i :: 0 <= i < |r.data.customers| && r.data.customers[i].customer.id == id
  }

  /** Every invoice a customer owns, newest invoice date first. */
  function OwnedInvoices(t: Tables, cid: int): (invs: seq<Invoice>)
    requires t.Valid()
    ensures |invs| == |t.OwnedBy(cid)|
    ensures forall iid :: iid in t.OwnedBy(cid) ==> t.invoices[iid] in invs
    ensures forall i :: 0 <= i < |invs| ==> invs[i].id in t.OwnedBy(cid) && t.invoices[invs[i].id] == invs[i]
    ensures forall i, j :: 0 <= i < j < |invs| ==> invs[i].id != invs[j].id && invs[i].date >= invs[j].date
  {
    var owned := t.OwnedBy(cid);
    var k := DateKeys(t, owned);
    var order := OrderDesc(k);
    assert |k| == |owned| by { assert k.Keys == owned; }
    var invs := Rows(t, order);
    forall iid | iid in owned ensures t.invoices[iid] in invs {
      RowsCover(t, order, iid);
    }
    invs
  }

  /** `GET /customers/:id`: the customer with all of its invoices. */
  function GetCustomerById(t: Tables, id: int): (r: Reply<CustomerDetail>)
    requires t.Valid()
    ensures id !in t.customers <==> r == Err(404, CustomerNotFound, [])
    ensures id in t.customers ==>
      r == Ok(200, "", CustomerDetail(t.customers[id], OwnedInvoices(t, id)))
  {
    if id !in t.customers then Err(404, CustomerNotFound, [])
    else Ok(200, "", CustomerDetail(t.customers[id], OwnedInvoices(t, id)))
  }

  /** `POST /customers`: the validation table, then the insert. */
  method CreateCustomer(db: Db, f: Formats, body: CustomerBody, now: int) returns (r: Reply<Customer>)
    requires db.Valid()
    modifies db
    ensures db.Valid()
    ensures CustomerValidation(f, body) != [] ==>
      r == Err(400, ValidationFailed, CustomerValidation(f, body)) && unchanged(db)
    ensures CustomerValidation(f, body) == [] ==>
      && body.name.Some?
      && r.Ok? && r.status == 201 && r.message == CustomerCreated
      && r.data.id !in old(db.customers)
      && r.data == Customer(r.data.id, body.name.value, body.address, body.phone, body.email, body.jobLocation, now)
      && db.customers == old(db.customers)[r.data.id := r.data]
      && db.invoices == old(db.invoices)
      && GetCustomerById(db.Snapshot(), r.data.id) == Ok(200, "", CustomerDetail(r.data, []))
  {
    var errors := CustomerValidation(f, body);
    if errors != [] {
      return Err(400, ValidationFailed, errors);
    }
    ValidationPassesIffRulesHold(f, body);
    var id := db.nextCustomerId;
    var c := Customer(id, body.name.value, body.address, body.phone, body.email, body.jobLocation, now);
    assert forall iid :: iid in db.invoices ==> db.invoices[iid].customerId != id;
    db.customers := db.customers[id := c];
    db.nextCustomerId := id + 1;
    assert forall iid :: iid !in db.Snapshot().OwnedBy(id);
    r := Ok(201, CustomerCreated, c);
  }

  /** `PUT /customers/:id`: the validation table, the existence check, then
      the update of that one row. */
  method UpdateCustomer(db: Db, f: Formats, id: int, body: CustomerBody) returns (r: Reply<Customer>)
    requires db.Valid()
    modifies db
    ensures db.Valid()
    ensures CustomerValidation(f, body) != [] ==>
      r == Err(400, ValidationFailed, CustomerValidation(f, body)) && unchanged(db)
    ensures CustomerValidation(f, body) == [] && id !in old(db.customers) ==>
      r == Err(404, CustomerNotFound, []) && unchanged(db)
    ensures CustomerValidation(f, body) == [] && id in old(db.customers) ==>
      var was := old(db.customers)[id];
      && body.name.Some?
      && r.Ok? && r.status == 200 && r.message == CustomerUpdated
      && r.data == Customer(id, body.name.value, Supplied(body.address, was.address),
                            Supplied(body.phone, was.phone), Supplied(body.email, was.email),
                            Supplied(body.jobLocation, was.jobLocation), was.createdAt)
      && db.customers == old(db.customers)[id := r.data]
      && db.invoices == old(db.invoices)
      && db.nextCustomerId == old(db.nextCustomerId) && db.nextInvoiceId == old(db.nextInvoiceId)
      && GetCustomerById(db.Snapshot(), id).Ok?
      && GetCustomerById(db.Snapshot(), id).data.customer == r.data
  {
    var errors := CustomerValidation(f, body);
    if errors != [] {
      return Err(400, ValidationFailed, errors);
    }
    if id !in db.customers {
      return Err(404, CustomerNotFound, []);
    }
    ValidationPassesIffRulesHold(f, body);
    var was := db.customers[id];
    var c := Customer(id, body.name.value, Supplied(body.address, was.address),
                      Supplied(body.phone, was.phone), Supplied(body.email, was.email),
                      Supplied(body.jobLocation, was.jobLocation), was.createdAt);
    db.customers := db.customers[id := c];
    r := Ok(200, CustomerUpdated, c);
  }

  /** `DELETE /customers/:id`: refused for an unknown id and for a customer
      that still owns invoices; otherwise exactly that row goes. */
  method DeleteCustomer(db: Db, id: int) returns (r: Reply<()>)
    requires db.Valid()
    modifies db
    ensures db.Valid()
    ensures id !in old(db.customers) ==> r == Err(404, CustomerNotFound, []) && unchanged(db)
    ensures id in old(db.customers) && old(db.Snapshot()).OwnedBy(id) != {} ==>
      r == Err(400, HasInvoices, []) && unchanged(db)
    ensures id in old(db.customers) && old(db.Snapshot()).OwnedBy(id) == {} ==>
      && r == Ok(200, CustomerDeleted, ())
      && db.customers == old(db.customers) - {id}
      && db.invoices == old(db.invoices)
      && db.nextCustomerId == old(db.nextCustomerId) && db.nextInvoiceId == old(db.nextInvoiceId)
      && GetCustomerById(db.Snapshot(), id) == Err(404, CustomerNotFound, [])
  {
    if id !in db.customers {
      return Err(404, CustomerNotFound, []);
    }
    var owned := db.Snapshot().OwnedBy(id);
    if |owned| > 0 {
      return Err(400, HasInvoices, []);
    }
    assert owned == {};
    assert forall iid :: iid in db.invoices ==> db.invoices[iid].customerId != id;
    db.customers := db.customers - {id};
    r := Ok(200, CustomerDeleted, ());
  }
}
