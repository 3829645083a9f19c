/**
 * The persistent records of the backend: customers, invoices and the
 * prediction stored for an invoice, held by the database as three tables
 * keyed by identifier. Dates are day numbers and amounts are counted in
 * hundredths (the amount column has two decimal places).
 */
module Models {
  import opened Uuids

  /** A calendar date as a day number. */
  type Day = int

  /** A decimal amount with two decimal places, in hundredths. */
  type Cents = int

  datatype Customer = Customer(id: Uuid, name: string, email: string, creditScore: int)

  /**
   * `customer` refers to a row of the customer table; `status` is one of
   * "pending" (the default for a new invoice), "paid" or "overdue".
   */
  datatype Invoice = Invoice(id: Uuid, customer: Uuid, amount: Cents, dueDate: Day, status: string)

  /** The prediction stored for an invoice. */
  datatype Prediction = Prediction(paymentProbability: real, expectedDate: Day, riskLevel: string)

  class Database {
    var customers: map<Uuid, Customer>
    var invoices: map<Uuid, Invoice>
    /** Keyed by invoice: there is at most one prediction per invoice. */
    var predictions: map<Uuid, Prediction>

    /** Rows are stored under their own id and every reference resolves. */
    ghost predicate Valid()
      reads this
    {
      && (forall id :: id in customers ==> customers[id].id == id)
      && (forall id :: id in invoices ==> invoices[id].id == id && invoices[id].customer in customers)
      && (forall id :: id in predictions ==> id in invoices)
    }

    /** A database holding the given customers and invoices and no predictions yet. */
    constructor (customers: map<Uuid, Customer>, invoices: map<Uuid, Invoice>)
      requires forall id :: id in customers ==> customers[id].id == id
      requires forall id :: id in invoices ==> invoices[id].id == id && invoices[id].customer in customers
      ensures Valid()
      ensures this.customers == customers && this.invoices == invoices && predictions == map[]
    {
      this.customers := customers;
      this.invoices := invoices;
      predictions := map[];
    }
  }
}
