/** The persistent store behind both controllers: a customer table and an
    invoice table keyed by id, with each invoice pointing at its owner
    through `customerId`. */
module Store {
  import opened Wrappers

  /** A customer row. `createdAt` is set when the row is created and never
      changed. */
  datatype Customer = Customer(
    id: int,
    name: string,
    address: Option<string>,
    phone: Option<string>,
    email: Option<string>,
    jobLocation: Option<string>,
    createdAt: int)

  /** An invoice row. Dates are comparable integers and amounts exact reals. */
  datatype Invoice = Invoice(
    id: int,
    date: int,
    description: string,
    amount: real,
    note: Option<string>,
    customerId: int,
    createdAt: int)

  /** The two tables as one request reads them. */
  datatype Tables = Tables(customers: map<int, Customer>, invoices: map<int, Invoice>) {

    /** Rows sit under their own id, and every invoice's owner exists (the
        relation is mandatory and no delete may break it). */
    ghost predicate Valid()
    {
      && (forall id :: id in customers ==> customers[id].id == id)
      && (forall id :: id in invoices ==> invoices[id].id == id)
      && (forall id :: id in invoices ==> invoices[id].customerId in customers)
    }

    /** The ids of the invoices that customer `cid` owns. */
    function OwnedBy(cid: int): (ids: set<int>)
      ensures forall id :: id in ids <==> id in invoices && invoices[id].customerId == cid
    {
      set id | id in invoices && invoices[id].customerId == cid
    }
  }

  /** The invoice-date sort key for the invoices `ids`. */
  function DateKeys(t: Tables, ids: set<int>): (k: map<int, int>)
    requires ids <= t.invoices.Keys
    ensures k.Keys == ids
    ensures forall id :: id in ids ==> k[id] == t.invoices[id].date
  {
    map id | id in ids :: t.invoices[id].date
  }

  /** The stored invoices at the ids `order`, in that order. */
  function Rows(t: Tables, order: seq<int>): (rows: seq<Invoice>)
    requires forall i :: 0 <= i < |order| ==> order[i] in t.invoices
    ensures |rows| == |order|
    ensures forall i :: 0 <= i < |order| ==> rows[i] == t.invoices[order[i]]
  {
    seq(|order|, i requires 0 <= i < |order| => t.invoices[order[i]])
  }

  lemma RowsCover(t: Tables, order: seq<int>, x: int)
    requires forall i :: 0 <= i < |order| ==> order[i] in t.invoices
    requires x in order
    ensures t.invoices[x] in Rows(t, order)
  {
    var i :| 0 <= i < |order| && order[i] == x;
    assert Rows(t, order)[i] == t.invoices[x];
  }

  /** The stored value of an optional field after an update: a field the
      body omits is left as it was (an `undefined` value is not written),
      one it carries replaces it. */
  function Supplied(given: Option<string>, stored: Option<string>): (v: Option<string>)
    ensures given.Some? ==> v == given
    ensures given.None? ==> v == stored
  {
    if given.Some? then given else stored
  }

  /** The database: both tables plus the next value of each table's
      auto-increment id. */
  class Db {
    var customers: map<int, Customer>
    var invoices: map<int, Invoice>
    var nextCustomerId: int
    var nextInvoiceId: int

    function Snapshot(): Tables
      reads this
    {
      Tables(customers, invoices)
    }

    /** The tables are consistent and every id in use is below the table's
        counter, so the counter value is always a fresh id. */
    ghost predicate Valid()
      reads this
    {
      && Snapshot().Valid()
      && nextCustomerId >= 1 && nextInvoiceId >= 1
      && (forall id :: id in customers ==> 1 <= id < nextCustomerId)
      && (forall id :: id in invoices ==> 1 <= id < nextInvoiceId)
    }

    /** An empty database; ids start at 1. */
    constructor ()
      ensures Valid()
      ensures customers == map[] && invoices == map[]
    {
      customers := map[];
      invoices := map[];
      nextCustomerId := 1;
      nextInvoiceId := 1;
    }
  }
}
