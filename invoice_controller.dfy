/** The invoice handlers: a paginated listing searchable across the invoice
    and its owner and filterable by owner, lookup by id, create, update,
    delete, the statistics block, and the download of an invoice document. */
module InvoiceController {
  import opened Wrappers
  import opened Text
  import opened Query
  import opened Envelope
  import opened Validator
  import opened InvoiceRoutes
  import opened Store
  import CustomerController

  const InvoiceNotFound := "Invoice not found"
  const InvoiceCreated := "Invoice created successfully"
  const InvoiceUpdated := "Invoice updated successfully"
  const InvoiceDeleted := "Invoice deleted successfully"

  /** How many invoices the statistics block lists. */
  const RecentCount := 5

  // ---------------------------------------------------------------- listing

  /** The listing's `where`: with a non-empty search, the description, the
      note or the owning customer's name contains it, ignoring case; with a
      customer id, the invoice belongs to that customer. */
  predicate Matches(t: Tables, inv: Invoice, search: string, customerId: Option<int>)
  {
    && (search == ""
        || ContainsInsensitive(inv.description, search)
        || ColumnContains(inv.note, search)
        || (inv.customerId in t.customers && ContainsInsensitive(t.customers[inv.customerId].name, search)))
    && (customerId.Some? ==> inv.customerId == customerId.value)
  }

  function Matching(t: Tables, search: string, customerId: Option<int>): (ids: set<int>)
    ensures forall id :: id in ids <==> id in t.invoices && Matches(t, t.invoices[id], search, customerId)
  {
    set id | id in t.invoices && Matches(t, t.invoices[id], search, customerId)
  }

  /** Every matching invoice, latest date first. */
  function ListingOrder(t: Tables, search: string, customerId: Option<int>): seq<int>
  {
    OrderDesc(DateKeys(t, Matching(t, search, customerId)))
  }

  function PageIds(t: Tables, q: PageQuery, customerId: Option<int>): (ids: seq<int>)
    requires q.WellFormed()
    ensures |ids| <= q.Limit()
    ensures forall i :: 0 <= i < |ids| ==>
      q.Skip() + i < |ListingOrder(t, q.Search(), customerId)|
      && ids[i] == ListingOrder(t, q.Search(), customerId)[q.Skip() + i]
  {
    var order := ListingOrder(t, q.Search(), customerId);
    var w := Window(order, q.Skip(), q.Limit());
    assert forall i :: 0 <= i < |w| ==> w[i] == order[q.Skip() + i];
    w
  }

  /** A page holds distinct matching invoices, latest date first. */
  lemma PageDescending(t: Tables, q: PageQuery, customerId: Option<int>)
    requires t.Valid() && q.WellFormed()
    ensures forall i :: 0 <= i < |PageIds(t, q, customerId)| ==>
      && PageIds(t, q, customerId)[i] in t.invoices
      && t.invoices[PageIds(t, q, customerId)[i]].id == PageIds(t, q, customerId)[i]
      && t.invoices[PageIds(t, q, customerId)[i]].customerId in t.customers
      && Matches(t, t.invoices[PageIds(t, q, customerId)[i]], q.Search(), customerId)
    ensures forall i, j :: 0 <= i < j < |PageIds(t, q, customerId)| ==>
      && PageIds(t, q, customerId)[i] != PageIds(t, q, customerId)[j]
      && t.invoices[PageIds(t, q, customerId)[i]].date >= t.invoices[PageIds(t, q, customerId)[j]].date
  {
    var page := PageIds(t, q, customerId);
    var k := DateKeys(t, Matching(t, q.Search(), customerId));
    var order := ListingOrder(t, q.Search(), customerId);
    forall i | 0 <= i < |page|
      ensures page[i] in t.invoices && t.invoices[page[i]].id == page[i]
      ensures t.invoices[page[i]].customerId in t.customers
      ensures Matches(t, t.invoices[page[i]], q.Search(), customerId)
    {
      assert page[i] == order[q.Skip() + i];
    }
    forall i, j | 0 <= i < j < |page|
      ensures page[i] != page[j] && t.invoices[page[i]].date >= t.invoices[page[j]].date
    {
      assert page[i] == order[q.Skip() + i] && page[j] == order[q.Skip() + j];
      assert k[page[i]] >= k[page[j]];
    }
  }

  /** The owner fields the listing, create and update responses include. */
  datatype Contact = Contact(id: int, name: string, email: Option<string>, phone: Option<string>)

  function ContactOf(c: Customer): Contact
  {
    Contact(c.id, c.name, c.email, c.phone)
  }

  datatype InvoiceWithContact = InvoiceWithContact(invoice: Invoice, customer: Contact)

  datatype InvoiceList = InvoiceList(invoices: seq<InvoiceWithContact>, pagination: Pagination)

  function WithContact(t: Tables, id: int): InvoiceWithContact
    requires t.Valid() && id in t.invoices
  {
    InvoiceWithContact(t.invoices[id], ContactOf(t.customers[t.invoices[id].customerId]))
  }

  /** `GET /invoices`: one page of the matching invoices, latest date
      first, each with its owner's contact fields, and the pagination
      block. A `customerId` of `None` stands for an absent or empty
      parameter. */
  function GetAllInvoices(t: Tables, q: PageQuery, customerId: Option<int>): (r: Reply<InvoiceList>)
    requires t.Valid() && q.WellFormed()
    ensures r.Ok? && r.status == 200
    ensures |r.data.invoices| == |PageIds(t, q, customerId)|
    ensures var total := |Matching(t, q.Search(), customerId)|;
      r.data.pagination == Pagination(q.Page(), q.Limit(), total, PageCount(total, q.Limit()))
    ensures forall i :: 0 <= i < |r.data.invoices| ==>
      var inv := r.data.invoices[i].invoice;
      && inv.id == PageIds(t, q, customerId)[i]
      && inv.id in t.invoices && t.invoices[inv.id] == inv
      && Matches(t, inv, q.Search(), customerId)
      && r.data.invoices[i].customer == ContactOf(t.customers[inv.customerId])
    ensures forall i, j :: 0 <= i < j < |r.data.invoices| ==>
      && r.data.invoices[i].invoice.id != r.data.invoices[j].invoice.id
      && r.data.invoices[i].invoice.date >= r.data.invoices[j].invoice.date
  {
    PageDescending(t, q, customerId);
    var ids := Matching(t, q.Search(), customerId);
    var page := PageIds(t, q, customerId);
    var items := seq(|page|, i requires 0 <= i < |page| => WithContact(t, page[i]));
    Ok(200, "", InvoiceList(items, Pagination(q.Page(), q.Limit(), |ids|, PageCount(|ids|, q.Limit()))))
  }

  /** The page holds `limit` rows, or what is left after the skipped ones,
      or none once the skip passes the last match. */
  lemma PageSize(t: Tables, q: PageQuery, customerId: Option<int>)
    requires t.Valid() && q.WellFormed()
    ensures var total := |Matching(t, q.Search(), customerId)|;
      |GetAllInvoices(t, q, customerId).data.invoices|
        == if q.Skip() >= total then 0
           else if total - q.Skip() < q.Limit() then total - q.Skip() else q.Limit()
  {
    assert |ListingOrder(t, q.Search(), customerId)| == |Matching(t, q.Search(), customerId)|;
  }

  /** Paging through the listing reaches every matching invoice: each
      appears on one of the first `pages` pages. As on the customer side,
      the store orders invoices with equal dates as it likes, so the lemma
      requires the matching invoices' dates are distinct; the invoice is
      then on that page of every order the store may return. */
  lemma EveryMatchIsListed(t: Tables, search: string, customerId: Option<int>, limit: int, id: int)
    requires t.Valid() && limit >= 1
    requires DistinctKeys(DateKeys(t, Matching(t, search, customerId)))
    requires id in t.invoices && Matches(t, t.invoices[id], search, customerId)
    ensures exists page :: (1 <= page <= PageCount(|Matching(t, search, customerId)|, limit) &&
      Listed(GetAllInvoices(t, PageQuery(Some(page), Some(limit), Some(search)), customerId), id) &&
      forall r :: SortedDesc(DateKeys(t, Matching(t, search, customerId)), r) ==> OnPage(r, page, limit, id))
  {
    var page := PageOf(t, search, customerId, limit, id);
    EveryOrderAgrees(t, search, customerId, limit, page, id);
  }

  /** With distinct dates, a row on a page of the listing order is on
      that page of every order the store may return. */
  lemma EveryOrderAgrees(t: Tables, search: string, customerId: Option<int>, limit: int, page: int, id: int)
    requires limit >= 1 && page >= 1
    requires DistinctKeys(DateKeys(t, Matching(t, search, customerId)))
    requires OnPage(ListingOrder(t, search, customerId), page, limit, id)
    ensures forall r :: SortedDesc(DateKeys(t, Matching(t, search, customerId)), r) ==> OnPage(r, page, limit, id)
  {
    var k := DateKeys(t, Matching(t, search, customerId));
    assert ListingOrder(t, search, customerId) == OrderDesc(k);
    forall r | SortedDesc(k, r) ensures OnPage(r, page, limit, id) {
      OrderIsUnique(k, r);
    }
  }

  /** The page of the listing that holds the matching invoice `id`. */
  lemma PageOf(t: Tables, search: string, customerId: Option<int>, limit: int, id: int) returns (page: int)
    requires t.Valid() && limit >= 1
    requires id in t.invoices && Matches(t, t.invoices[id], search, customerId)
    ensures 1 <= page <= PageCount(|Matching(t, search, customerId)|, limit)
    ensures Listed(GetAllInvoices(t, PageQuery(Some(page), Some(limit), Some(search)), customerId), id)
    ensures OnPage(ListingOrder(t, search, customerId), page, limit, id)
  {
    var i;
    page, i := ListingPosition(t, search, customerId, limit, id);
    ListedOnPage(t, search, customerId, limit, page, i, id);
    OnPageAt(ListingOrder(t, search, customerId), page, limit, i);
  }

  /** Where the matching row `id` sits in the listing order: position `i`
      of page `page`. */
  lemma ListingPosition(t: Tables, search: string, customerId: Option<int>, limit: int, id: int) returns (page: int, i: int)
    requires limit >= 1
    requires id in t.invoices && Matches(t, t.invoices[id], search, customerId)
    ensures 1 <= page <= PageCount(|Matching(t, search, customerId)|, limit)
    ensures 0 <= i < limit && 0 <= (page - 1) * limit + i < |ListingOrder(t, search, customerId)|
    ensures ListingOrder(t, search, customerId)[(page - 1) * limit + i] == id
  {
    var j := IndexInOrder(t, search, customerId, id);
    page, i := PlaceOnPage(ListingOrder(t, search, customerId), limit, j);
  }

  lemma IndexInOrder(t: Tables, search: string, customerId: Option<int>, id: int) returns (j: int)
    requires id in t.invoices && Matches(t, t.invoices[id], search, customerId)
    ensures |ListingOrder(t, search, customerId)| == |Matching(t, search, customerId)|
    ensures 0 <= j < |ListingOrder(t, search, customerId)| && ListingOrder(t, search, customerId)[j] == id
  {
    var order := ListingOrder(t, search, customerId);
    assert id in DateKeys(t, Matching(t, search, customerId));
    j :| 0 <= j < |order| && order[j] == id;
  }

  lemma ListedOnPage(t: Tables, search: string, customerId: Option<int>, limit: int, page: int, i: int, id: int)
    requires t.Valid() && limit >= 1 && page >= 1
    requires 0 <= i < limit && 0 <= (page - 1) * limit + i < |ListingOrder(t, search, customerId)|
    requires ListingOrder(t, search, customerId)[(page - 1) * limit + i] == id
    ensures Listed(GetAllInvoices(t, PageQuery(Some(page), Some(limit), Some(search)), customerId), id)
  {
    var q := PageQuery(Some(page), Some(limit), Some(search));
    SkipOf(page, limit, search);
    PositionIsListed(t, q, customerId, i, id);
  }

  /** The row at position `skip + i` of the listing order is on the page
      that starts at `skip`, for every `i` below the page size. */
  lemma PositionIsListed(t: Tables, q: PageQuery, customerId: Option<int>, i: int, id: int)
    requires t.Valid() && q.WellFormed()
    requires 0 <= i < q.Limit() && q.Skip() + i < |ListingOrder(t, q.Search(), customerId)|
    requires ListingOrder(t, q.Search(), customerId)[q.Skip() + i] == id
    ensures Listed(GetAllInvoices(t, q, customerId), id)
  {
    var r := GetAllInvoices(t, q, customerId);
    var w := Window(ListingOrder(t, q.Search(), customerId), q.Skip(), q.Limit());
    assert 0 <= i < |w|;
    assert r.data.invoices[i].invoice.id == id;
  }

  /** The page `r` lists the invoice `id`. */
  predicate Listed(r: Reply<InvoiceList>, id: int)
  {
    r.Ok? && exists i :: 0 <= i < |r.data.invoices| && r.data.invoices[i].invoice.id == id
  }

  /** Filtering by owner without a search counts exactly the invoices that
      owner has, the same set the customer delete guard inspects. */
  lemma OwnerFilterCountsOwned(t: Tables, cid: int)
    ensures Matching(t, "", Some(cid)) == t.OwnedBy(cid)
  {
    assert forall id :: id in Matching(t, "", Some(cid)) <==> id in t.OwnedBy(cid);
  }

  // ----------------------------------------------------------------- lookup

  datatype InvoiceDetail = InvoiceDetail(invoice: Invoice, customer: Customer)

  /** `GET /invoices/:id`: the invoice with its full owner row. */
  function GetInvoiceById(t: Tables, id: int): (r: Reply<InvoiceDetail>)
    requires t.Valid()
    ensures id !in t.invoices <==> r == Err(404, InvoiceNotFound, [])
    ensures id in t.invoices ==>
      && r.Ok? && r.status == 200
      && r.data.invoice == t.invoices[id]
      && r.data.invoice.id == id
      && r.data.customer == t.customers[r.data.invoice.customerId]
  {
    if id !in t.invoices then Err(404, InvoiceNotFound, [])
    else Ok(200, "", InvoiceDetail(t.invoices[id], t.customers[t.invoices[id].customerId]))
  }

  // ------------------------------------------------------------- statistics

  /** The amount column, keyed by invoice id. */
  function Amounts(t: Tables): (m: map<int, real>)
    ensures m.Keys == t.invoices.Keys
    ensures forall id :: id in m ==> m[id] == t.invoices[id].amount
  {
    map id | id in t.invoices :: t.invoices[id].amount
  }

  /** The `_sum` aggregate, with a missing sum (no rows) read as 0. */
  function TotalAmount(t: Tables): real
  {
    Sum(Amounts(t))
  }

  datatype RecentInvoice = RecentInvoice(invoice: Invoice, customerName: string)

  datatype Stats = Stats(totalInvoices: nat, totalAmount: real, recentInvoices: seq<RecentInvoice>)

  /** The ids of the `take` invoices with the latest dates, latest first. */
  function Latest(t: Tables, take: nat): (ids: seq<int>)
    ensures |ids| == if |t.invoices| < take then |t.invoices| else take
    ensures forall i :: 0 <= i < |ids| ==> ids[i] in t.invoices
    ensures forall i, j :: 0 <= i < j < |ids| ==>
      ids[i] != ids[j] && t.invoices[ids[i]].date >= t.invoices[ids[j]].date
  {
    var k := DateKeys(t, t.invoices.Keys);
    var order := OrderDesc(k);
    assert |k| == |t.invoices| by { assert k.Keys == t.invoices.Keys; }
    if |order| < take then order else order[..take]
  }

  /** An invoice that `Latest` leaves out is dated no later than the last
      one it keeps. */
  lemma LatestAreLatest(t: Tables, take: nat, id: int)
    requires id in t.invoices && id !in Latest(t, take) && |Latest(t, take)| > 0
    ensures t.invoices[id].date <= t.invoices[Latest(t, take)[|Latest(t, take)| - 1]].date
  {
    var k := DateKeys(t, t.invoices.Keys);
    var order := OrderDesc(k);
    assert |k| == |t.invoices| by { assert k.Keys == t.invoices.Keys; }
    var n := |Latest(t, take)|;
    assert Latest(t, take) == order[..n];
    PrefixHoldsTop(k, n, id);
  }

  /** The recent-invoice entries for the ids `ids`, each with its owner's name. */
  function RecentOf(t: Tables, ids: seq<int>): (rs: seq<RecentInvoice>)
    requires t.Valid() && forall i :: 0 <= i < |ids| ==> ids[i] in t.invoices
    ensures |rs| == |ids|
    ensures forall i :: 0 <= i < |ids| ==> rs[i] == Recent(t, ids[i])
  {
    seq(|ids|, i requires 0 <= i < |ids| => Recent(t, ids[i]))
  }

  function Recent(t: Tables, id: int): RecentInvoice
    requires t.Valid() && id in t.invoices
  {
    RecentInvoice(t.invoices[id], t.customers[t.invoices[id].customerId].name)
  }

  /** `GET /invoices/stats`: the invoice count, the sum of all amounts, and
      the five invoices with the latest dates, each with its owner's name. */
  function GetInvoiceStats(t: Tables): (r: Reply<Stats>)
    requires t.Valid()
    ensures r.Ok? && r.status == 200
    ensures r.data.totalInvoices == |t.invoices|
    ensures r.data.totalAmount == TotalAmount(t)
    ensures t.invoices == map[] ==> r.data.totalAmount == 0.0 && r.data.recentInvoices == []
    ensures |r.data.recentInvoices| == |Latest(t, RecentCount)|
    ensures forall i :: 0 <= i < |r.data.recentInvoices| ==>
      && r.data.recentInvoices[i].invoice.id == Latest(t, RecentCount)[i]
      && r.data.recentInvoices[i].invoice == t.invoices[Latest(t, RecentCount)[i]]
      && r.data.recentInvoices[i].customerName == t.customers[r.data.recentInvoices[i].invoice.customerId].name
  {
    var ids := Latest(t, RecentCount);
    var recent := RecentOf(t, ids);
    EmptyTotal(t);
    Ok(200, "", Stats(|t.invoices|, TotalAmount(t), recent))
  }

  /** With no invoices the total is 0. */
  lemma EmptyTotal(t: Tables)
    ensures t.invoices == map[] ==> TotalAmount(t) == 0.0
  {
    if t.invoices == map[] {
      assert Amounts(t) == map[];
      SumEmpty();
    }
  }

  /** No invoice outside the recent list is dated after the last one in it. */
  lemma RecentAreLatest(t: Tables, id: int)
    requires t.Valid() && id in t.invoices
    ensures var recent := GetInvoiceStats(t).data.recentInvoices;
      (forall i :: 0 <= i < |recent| ==> recent[i].invoice.id != id)
      ==> t.invoices[id].date <= recent[|recent| - 1].invoice.date
  {
    var recent := GetInvoiceStats(t).data.recentInvoices;
    var ids := Latest(t, RecentCount);
    assert |recent| == |ids| > 0;
    if id in ids {
      var p :| 0 <= p < |ids| && ids[p] == id;
      assert recent[p].invoice.id == id;
    } else {
      LatestAreLatest(t, RecentCount, id);
    }
  }

  /** Adding an invoice raises the total by its amount. */
  lemma TotalAfterInsert(t: Tables, row: Invoice)
    requires row.id !in t.invoices
    ensures TotalAmount(Tables(t.customers, t.invoices[row.id := row])) == TotalAmount(t) + row.amount
  {
    var after := Tables(t.customers, t.invoices[row.id := row]);
    assert Amounts(after) == Amounts(t)[row.id := row.amount];
    SumInsert(Amounts(t), row.id, row.amount);
  }

  /** Replacing an invoice swaps its old amount for the new one. */
  lemma TotalAfterReplace(t: Tables, row: Invoice)
    requires row.id in t.invoices
    ensures TotalAmount(Tables(t.customers, t.invoices[row.id := row]))
      == TotalAmount(t) - t.invoices[row.id].amount + row.amount
  {
    var after := Tables(t.customers, t.invoices[row.id := row]);
    assert Amounts(after) == Amounts(t)[row.id := row.amount];
    SumReplace(Amounts(t), row.id, row.amount);
  }

  /** Removing an invoice lowers the total by its amount. */
  lemma TotalAfterRemove(t: Tables, id: int)
    requires id in t.invoices
    ensures TotalAmount(Tables(t.customers, t.invoices - {id})) == TotalAmount(t) - t.invoices[id].amount
  {
    var after := Tables(t.customers, t.invoices - {id});
    assert Amounts(after) == Amounts(t) - {id};
    SumRemove(Amounts(t), id);
  }

  // ---------------------------------------------------------------- writes

  /** The row a valid body describes, under id `id`. */
  function RowOf(f: Formats, b: InvoiceBody, id: int, note: Option<string>, createdAt: int): (row: Invoice)
    requires InvoiceRulesHold(f, b)
    ensures row.id == id && row.note == note && row.createdAt == createdAt
    ensures Some(row.date) == f.isoDate(b.date.value)
    ensures Some(row.description) == b.description && 5 <= |row.description| <= 500
    ensures Some(row.amount) == f.decimal(b.amount.value) && row.amount >= MinAmount
    ensures Some(row.customerId) == ParseInteger(b.customerId.value) && row.customerId >= 1
  {
    Invoice(id, f.isoDate(b.date.value).value, b.description.value, f.decimal(b.amount.value).value,
            note, ParseInteger(b.customerId.value).value, createdAt)
  }

  /** The owner a body names, once the body is valid. */
  function OwnerOf(f: Formats, b: InvoiceBody): int
    requires InvoiceRulesHold(f, b)
  {
    ParseInteger(b.customerId.value).value
  }

  /** `POST /invoices`: the validation table, the owner check, then the
      insert. */
  method CreateInvoice(db: Db, f: Formats, body: InvoiceBody, now: int) returns (r: Reply<InvoiceWithContact>)
    requires db.Valid()
    modifies db
    ensures db.Valid()
    ensures InvoiceValidation(f, body) != [] ==>
      r == Err(400, ValidationFailed, InvoiceValidation(f, body)) && unchanged(db)
    ensures InvoiceValidation(f, body) == [] ==> InvoiceRulesHold(f, body)
    ensures InvoiceRulesHold(f, body) && OwnerOf(f, body) !in old(db.customers) ==>
      r == Err(404, CustomerController.CustomerNotFound, []) && unchanged(db)
    ensures InvoiceRulesHold(f, body) && OwnerOf(f, body) in old(db.customers) ==>
      r.Ok? && var row := r.data.invoice;
      && r.status == 201 && r.message == InvoiceCreated
      && row.id !in old(db.invoices)
      && row == RowOf(f, body, row.id, body.note, now)
      && r.data.customer == ContactOf(old(db.customers)[OwnerOf(f, body)])
      && db.invoices == old(db.invoices)[row.id := row]
      && db.customers == old(db.customers)
      && TotalAmount(db.Snapshot()) == TotalAmount(old(db.Snapshot())) + row.amount
      && |db.invoices| == |old(db.invoices)| + 1
  {
    var errors := InvoiceValidation(f, body);
    ValidationPassesIffRulesHold(f, body);
    if errors != [] {
      return Err(400, ValidationFailed, errors);
    }
    var cid := OwnerOf(f, body);
    if cid !in db.customers {
      return Err(404, CustomerController.CustomerNotFound, []);
    }
    var id := db.nextInvoiceId;
    var row := RowOf(f, body, id, body.note, now);
    TotalAfterInsert(db.Snapshot(), row);
    db.invoices := db.invoices[id := row];
    db.nextInvoiceId := id + 1;
    r := Ok(201, InvoiceCreated, InvoiceWithContact(row, ContactOf(db.customers[cid])));
  }

  /** `PUT /invoices/:id`: the validation table, the invoice check, the
      owner check, then the update of that one row. A note the body omits
      keeps its stored value. */
  method UpdateInvoice(db: Db, f: Formats, id: int, body: InvoiceBody) returns (r: Reply<InvoiceWithContact>)
    requires db.Valid()
    modifies db
    ensures db.Valid()
    ensures InvoiceValidation(f, body) != [] ==>
      r == Err(400, ValidationFailed, InvoiceValidation(f, body)) && unchanged(db)
    ensures InvoiceValidation(f, body) == [] ==> InvoiceRulesHold(f, body)
    ensures InvoiceRulesHold(f, body) && id !in old(db.invoices) ==>
      r == Err(404, InvoiceNotFound, []) && unchanged(db)
    ensures InvoiceRulesHold(f, body) && id in old(db.invoices) && OwnerOf(f, body) !in old(db.customers) ==>
      r == Err(404, CustomerController.CustomerNotFound, []) && unchanged(db)
    ensures InvoiceRulesHold(f, body) && id in old(db.invoices) && OwnerOf(f, body) in old(db.customers) ==>
      var was := old(db.invoices)[id];
      var row := RowOf(f, body, id, Supplied(body.note, was.note), was.createdAt);
      && r == Ok(200, InvoiceUpdated, InvoiceWithContact(row, ContactOf(old(db.customers)[OwnerOf(f, body)])))
      && db.invoices == old(db.invoices)[id := row]
      && db.customers == old(db.customers)
      && db.nextCustomerId == old(db.nextCustomerId) && db.nextInvoiceId == old(db.nextInvoiceId)
      && TotalAmount(db.Snapshot()) == TotalAmount(old(db.Snapshot())) - was.amount + row.amount
  {
    var errors := InvoiceValidation(f, body);
    ValidationPassesIffRulesHold(f, body);
    if errors != [] {
      return Err(400, ValidationFailed, errors);
    }
    if id !in db.invoices {
      return Err(404, InvoiceNotFound, []);
    }
    var cid := OwnerOf(f, body);
    if cid !in db.customers {
      return Err(404, CustomerController.CustomerNotFound, []);
    }
    var was := db.invoices[id];
    var row := RowOf(f, body, id, Supplied(body.note, was.note), was.createdAt);
    TotalAfterReplace(db.Snapshot(), row);
    db.invoices := db.invoices[id := row];
    r := Ok(200, InvoiceUpdated, InvoiceWithContact(row, ContactOf(db.customers[cid])));
  }

  /** `DELETE /invoices/:id`: refused for an unknown id; otherwise exactly
      that row goes, whoever owns it. */
  method DeleteInvoice(db: Db, id: int) returns (r: Reply<()>)
    requires db.Valid()
    modifies db
    ensures db.Valid()
    ensures id !in old(db.invoices) ==> r == Err(404, InvoiceNotFound, []) && unchanged(db)
    ensures id in old(db.invoices) ==>
      && r == Ok(200, InvoiceDeleted, ())
      && db.invoices == old(db.invoices) - {id}
      && db.customers == old(db.customers)
      && db.nextCustomerId == old(db.nextCustomerId) && db.nextInvoiceId == old(db.nextInvoiceId)
      && TotalAmount(db.Snapshot()) == TotalAmount(old(db.Snapshot())) - old(db.invoices)[id].amount
      && GetInvoiceById(db.Snapshot(), id) == Err(404, InvoiceNotFound, [])
  {
    if id !in db.invoices {
      return Err(404, InvoiceNotFound, []);
    }
    TotalAfterRemove(db.Snapshot(), id);
    db.invoices := db.invoices - {id};
    r := Ok(200, InvoiceDeleted, ());
  }

  // --------------------------------------------------------------- download

  datatype Document = Document(contentType: string, disposition: string, content: string)

  const PdfType := "application/pdf"
  const DispositionPrefix := "attachment; filename=invoice-"
  const PdfSuffix := ".pdf"

  /** The `Content-Disposition` header naming the file `invoice-<id>.pdf`. */
  function Disposition(id: int): string
  {
    DispositionPrefix + IntToDecimal(id) + PdfSuffix
  }

  /** The invoice id a download's header names, if it names one. */
  function DispositionId(d: string): Option<int>
  {
    if |d| >= |DispositionPrefix| + |PdfSuffix|
       && d[..|DispositionPrefix|] == DispositionPrefix
       && d[|d| - |PdfSuffix|..] == PdfSuffix
    then ParseInteger(d[|DispositionPrefix|..|d| - |PdfSuffix|])
    else None
  }

  /** The header names the downloaded invoice and no other. */
  lemma DispositionRoundTrip(id: int)
    ensures DispositionId(Disposition(id)) == Some(id)
  {
    var d := Disposition(id);
    var digits := IntToDecimal(id);
    assert d[..|DispositionPrefix|] == DispositionPrefix;
    assert d[|d| - |PdfSuffix|..] == PdfSuffix;
    assert d[|DispositionPrefix|..|d| - |PdfSuffix|] == digits;
    IntRoundTrip(id);
  }

  lemma DispositionsDiffer(a: int, b: int)
    requires a != b
    ensures Disposition(a) != Disposition(b)
  {
    DispositionRoundTrip(a);
    DispositionRoundTrip(b);
  }

  /** The `x || 'N/A'` rendering: a missing or empty field shows `N/A`. */
  function OrNA(v: Option<string>): (s: string)
    ensures v.Some? && v.value != "" ==> s == v.value
    ensures v.None? || v.value == "" ==> s == "N/A"
  {
    if v.Some? && v.value != "" then v.value else "N/A"
  }

  /** The document's lines. The date and amount renderings and the
      generation day are supplied by the caller. */
  function ReportLines(inv: Invoice, c: Customer, showDate: int -> string, showAmount: real -> string,
                       today: string): seq<string>
  {
    [ "",
      "INVOICE #" + IntToDecimal(inv.id),
      "Date: " + showDate(inv.date),
      "Customer: " + c.name,
      "Address: " + OrNA(c.address),
      "Phone: " + OrNA(c.phone),
      "Email: " + OrNA(c.email),
      "Job Location: " + OrNA(c.jobLocation),
      "",
      "Description: " + inv.description,
      "Amount: $" + showAmount(inv.amount),
      "Note: " + OrNA(inv.note),
      "",
      "Generated on: " + today,
      "      " ]
  }

  /** `GET /invoices/:id/download`. */
  function DownloadInvoice(t: Tables, id: int, showDate: int -> string, showAmount: real -> string,
                           today: string): (r: Reply<Document>)
    requires t.Valid()
    ensures id !in t.invoices <==> r == Err(404, InvoiceNotFound, [])
    ensures id in t.invoices ==>
      && r.Ok? && r.status == 200
      && r.data.contentType == PdfType
      && DispositionId(r.data.disposition) == Some(id)
  {
    if id !in t.invoices then Err(404, InvoiceNotFound, [])
    else
      var inv := t.invoices[id];
      DispositionRoundTrip(id);
      var lines := ReportLines(inv, t.customers[inv.customerId], showDate, showAmount, today);
      Ok(200, "", Document(PdfType, Disposition(inv.id), Join(lines, '\n')))
  }

  /** No text of the invoice, its owner or the renderings holds a line
      break. */
  predicate SingleLine(inv: Invoice, c: Customer, showDate: int -> string, showAmount: real -> string,
                       today: string)
  {
    && '\n' !in showDate(inv.date) && '\n' !in c.name
    && '\n' !in OrNA(c.address) && '\n' !in OrNA(c.phone)
    && '\n' !in OrNA(c.email) && '\n' !in OrNA(c.jobLocation)
    && '\n' !in inv.description && '\n' !in showAmount(inv.amount)
    && '\n' !in OrNA(inv.note) && '\n' !in today
  }

  lemma DecimalHasNoBreak(i: int)
    ensures '\n' !in IntToDecimal(i)
  {
    var s := IntToDecimal(i);
    forall k | 0 <= k < |s| ensures s[k] != '\n' {
      if i < 0 && k > 0 {
        assert s[k] == NatToDecimal(-i)[k - 1];
      }
    }
  }

  /** No line of the report spans lines when none of its texts does. */
  lemma ReportLinesUnbroken(inv: Invoice, c: Customer, showDate: int -> string, showAmount: real -> string,
                            today: string)
    requires SingleLine(inv, c, showDate, showAmount, today)
    ensures forall i :: 0 <= i < |ReportLines(inv, c, showDate, showAmount, today)| ==>
      '\n' !in ReportLines(inv, c, showDate, showAmount, today)[i]
  {
    DecimalHasNoBreak(inv.id);
  }

  /** Read line by line, the document is its report lines: the invoice
      number, the owner with each absent or empty contact field as `N/A`,
      the description and the note, provided none of those texts spans
      lines. */
  lemma DocumentLines(t: Tables, id: int, showDate: int -> string, showAmount: real -> string, today: string)
    requires t.Valid() && id in t.invoices
    requires SingleLine(t.invoices[id], t.customers[t.invoices[id].customerId], showDate, showAmount, today)
    ensures Split(DownloadInvoice(t, id, showDate, showAmount, today).data.content, '\n')
      == ReportLines(t.invoices[id], t.customers[t.invoices[id].customerId], showDate, showAmount, today)
  {
    var inv := t.invoices[id];
    var c := t.customers[inv.customerId];
    ReportLinesUnbroken(inv, c, showDate, showAmount, today);
    SplitJoin(ReportLines(inv, c, showDate, showAmount, today), '\n');
  }
}
