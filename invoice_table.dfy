/**
 * The dashboard's invoice table: the invoices whose customer name or status
 * contains the filter text (letter case ignored) are listed, in their
 * original order, each with a coloured status badge and three prediction
 * cells; with nothing to list, one "No invoices found" row spans the table.
 *
 * Number and date formatting (`toFixed`, `toLocaleDateString`) are not
 * modelled: the cells carry the values they format.
 */
module InvoiceTable {
  import opened Wrappers
  import opened Text

  datatype Customer = Customer(id: string, name: string, email: string, creditScore: int)

  /** The amount as the API delivers it: a number, or its decimal text. */
  datatype Amount = Number(value: real) | Decimal(text: string)

  /** The prediction attached to an invoice by the API, if any. */
  datatype PredictionView = PredictionView(paymentProbability: real, expectedDate: string, riskLevel: string)

  datatype Invoice = Invoice(
    id: string, customer: Customer, amount: Amount, dueDate: string, status: string,
    createdAt: string, prediction: Option<PredictionView>)

  /** The filter predicate: case-insensitive substring match on customer name or status. */
  predicate Matches(invoice: Invoice, filter: string) {
    || Contains(AsciiLower(invoice.customer.name), AsciiLower(filter))
    || Contains(AsciiLower(invoice.status), AsciiLower(filter))
  }

  /** `invoices.filter(...)`: the matching invoices, in order. */
  function FilterInvoices(invoices: seq<Invoice>, filter: string): (r: seq<Invoice>)
    ensures |r| <= |invoices|
    ensures forall x :: x in r <==> x in invoices && Matches(x, filter)
    ensures forall x :: multiset(r)[x] == if Matches(x, filter) then multiset(invoices)[x] else 0
  {
    if invoices == [] then []
    else
      assert invoices == [invoices[0]] + invoices[1..];
      (if Matches(invoices[0], filter) then [invoices[0]] else []) + FilterInvoices(invoices[1..], filter)
  }

  /** `sub` is `s` with some elements removed, the rest in their order. */
  predicate IsSubsequence<T(==)>(sub: seq<T>, s: seq<T>) {
    || sub == []
    || (&& s != []
        && (|| (sub[0] == s[0] && IsSubsequence(sub[1..], s[1..]))
            || IsSubsequence(sub, s[1..])))
  }

  /** Filtering adds nothing and keeps the original order. */
  lemma {:induction false} FilterIsSubsequence(invoices: seq<Invoice>, filter: string)
    ensures IsSubsequence(FilterInvoices(invoices, filter), invoices)
  {
    if invoices != [] {
      FilterIsSubsequence(invoices[1..], filter);
      var rest := FilterInvoices(invoices[1..], filter);
      if Matches(invoices[0], filter) {
        assert FilterInvoices(invoices, filter) == [invoices[0]] + rest;
        assert ([invoices[0]] + rest)[1..] == rest;
      } else {
        assert FilterInvoices(invoices, filter) == rest;
      }
    }
  }

  /** The empty filter keeps every invoice: after "Clear" the whole list is shown. */
  lemma {:induction false} EmptyFilterKeepsAll(invoices: seq<Invoice>)
    ensures FilterInvoices(invoices, "") == invoices
  {
    if invoices != [] {
      assert AsciiLower("") == "";
      assert Matches(invoices[0], "");
      EmptyFilterKeepsAll(invoices[1..]);
      assert invoices == [invoices[0]] + invoices[1..];
    }
  }

  /** Filtering the filtered list again with the same text changes nothing. */
  lemma {:induction false} FilterIdempotent(invoices: seq<Invoice>, filter: string)
    ensures FilterInvoices(FilterInvoices(invoices, filter), filter) == FilterInvoices(invoices, filter)
  {
    if invoices != [] {
      var rest := FilterInvoices(invoices[1..], filter);
      FilterIdempotent(invoices[1..], filter);
      if Matches(invoices[0], filter) {
        var r := [invoices[0]] + rest;
        assert FilterInvoices(invoices, filter) == r;
        assert r[0] == invoices[0] && r[1..] == rest;
      } else {
        assert FilterInvoices(invoices, filter) == rest;
      }
    }
  }

  /** Filters that differ only in the case of ASCII letters select the same invoices. */
  lemma {:induction false} FilterIgnoresCase(invoices: seq<Invoice>, f: string, g: string)
    requires AsciiLower(f) == AsciiLower(g)
    ensures FilterInvoices(invoices, f) == FilterInvoices(invoices, g)
  {
    if invoices != [] {
      FilterIgnoresCase(invoices[1..], f, g);
    }
  }

  /** Badge colours. */
  datatype Badge = Green | Yellow | Red

  /** The Tailwind classes a badge of that colour carries. */
  function BadgeClass(b: Badge): string {
    match b
    case Green => "px-2 py-1 rounded bg-green-100 text-green-800"
    case Yellow => "px-2 py-1 rounded bg-yellow-100 text-yellow-800"
    case Red => "px-2 py-1 rounded bg-red-100 text-red-800"
  }

  /** Badges of different colours carry different classes. */
  lemma BadgeClassesDistinct(a: Badge, b: Badge)
    requires a != b
    ensures BadgeClass(a) != BadgeClass(b)
  {
  }

  /** Status badge: paid is green, pending yellow, anything else red. */
  function StatusBadge(status: string): (b: Badge)
    ensures b == Green <==> status == "paid"
    ensures b == Yellow <==> status == "pending"
    ensures b == Red <==> status != "paid" && status != "pending"
  {
    if status == "paid" then Green else if status == "pending" then Yellow else Red
  }

  /** Risk badge: low is green, anything else red; never yellow. */
  function RiskBadge(risk: string): (b: Badge)
    ensures b == Green <==> risk == "low"
    ensures b == Red <==> risk != "low"
  {
    if risk == "low" then Green else Red
  }

  /** A table cell that shows a value or the text "N/A". */
  datatype Cell<T> = NotAvailable | Shown(value: T)

  datatype Row =
    /** Badges carry their Tailwind class string. */
    | InvoiceRow(customerName: string, amount: Amount, dueDate: string, status: string, statusClass: string,
                 lateProbability: Cell<real>, expectedPayment: Cell<string>, risk: Cell<(string, string)>)
    | EmptyRow(colSpan: nat, text: string)

  const Columns: seq<string> :=
    ["Customer", "Amount", "Due Date", "Status", "Late Probability", "Expected Payment", "Risk"]

  const NoInvoices := "No invoices found"

  /** The row of one invoice. */
  function RenderRow(invoice: Invoice): (row: Row)
    ensures row.InvoiceRow? && row.customerName == invoice.customer.name && row.status == invoice.status
    ensures row.amount == invoice.amount && row.dueDate == invoice.dueDate
    ensures row.statusClass == BadgeClass(StatusBadge(invoice.status))
    ensures invoice.prediction.None? <==> row.lateProbability == NotAvailable
    ensures invoice.prediction.None? <==> row.expectedPayment == NotAvailable
    ensures invoice.prediction.None? <==> row.risk == NotAvailable
    ensures invoice.prediction.Some? ==>
      var p := invoice.prediction.value;
      && row.lateProbability == Shown(p.paymentProbability)
      && row.expectedPayment == Shown(p.expectedDate)
      && row.risk == Shown((p.riskLevel, BadgeClass(RiskBadge(p.riskLevel))))
  {
    match invoice.prediction
    case None =>
      InvoiceRow(invoice.customer.name, invoice.amount, invoice.dueDate, invoice.status,
                 BadgeClass(StatusBadge(invoice.status)), NotAvailable, NotAvailable, NotAvailable)
    case Some(p) =>
      InvoiceRow(invoice.customer.name, invoice.amount, invoice.dueDate, invoice.status,
                 BadgeClass(StatusBadge(invoice.status)), Shown(p.paymentProbability), Shown(p.expectedDate),
                 Shown((p.riskLevel, BadgeClass(RiskBadge(p.riskLevel)))))
  }

  /** The table body for the filtered invoices. */
  function RenderBody(filtered: seq<Invoice>): (rows: seq<Row>)
    ensures filtered == [] ==> rows == [EmptyRow(|Columns|, NoInvoices)] && |Columns| == 7
    ensures filtered != [] ==> |rows| == |filtered| && forall i :: 0 <= i < |rows| ==> rows[i] == RenderRow(filtered[i])
  {
    if filtered == [] then [EmptyRow(|Columns|, NoInvoices)]
    else seq(|filtered|, i requires 0 <= i < |filtered| => RenderRow(filtered[i]))
  }

  /** The body of the table for the given invoices and filter text. */
  function Table(invoices: seq<Invoice>, filter: string): seq<Row> {
    RenderBody(FilterInvoices(invoices, filter))
  }

  /** The single "No invoices found" row appears exactly when no invoice matches the filter. */
  lemma NoInvoicesRowIffNothingMatches(invoices: seq<Invoice>, filter: string)
    ensures Table(invoices, filter) == [EmptyRow(7, NoInvoices)] <==>
      forall i :: 0 <= i < |invoices| ==> !Matches(invoices[i], filter)
  {
  }

  /** After "Clear" every invoice has its row, in order. */
  lemma ClearedTableListsAll(invoices: seq<Invoice>)
    requires invoices != []
    ensures |Table(invoices, "")| == |invoices|
    ensures forall i :: 0 <= i < |invoices| ==> Table(invoices, "")[i] == RenderRow(invoices[i])
  {
    EmptyFilterKeepsAll(invoices);
  }
}
