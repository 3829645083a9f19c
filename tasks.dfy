/**
 * `send_payment_reminder(invoice_id)`: an email goes to the customer of a
 * pending invoice whose prediction says high risk. Sending is appending to
 * the mailer's outbox; the body text is not modelled.
 */
module Tasks {
  import opened Wrappers
  import opened Uuids
  import opened Models

  datatype Email = Email(subject: string, fromEmail: string, recipientList: seq<string>)

  const Sender := "from@paypredict.com"
  const SubjectPrefix := "Payment Reminder: Invoice "

  datatype TaskError = InvoiceDoesNotExist

  /** The reminder for `invoice`, if one is due, given the prediction found for it. */
  function Reminder(invoice: Invoice, customer: Customer, prediction: Option<Prediction>): (r: Option<Email>)
    ensures r.Some? <==> invoice.status == "pending" && prediction.Some? && prediction.value.riskLevel == "high"
    ensures r.Some? ==> r.value.fromEmail == Sender && r.value.recipientList == [customer.email]
    ensures r.Some? ==>
      SubjectPrefix <= r.value.subject && r.value.subject[|SubjectPrefix|..] == UuidString(invoice.id)
  {
    if invoice.status == "pending" && prediction.Some? && prediction.value.riskLevel == "high" then
      Some(Email(SubjectPrefix + UuidString(invoice.id), Sender, [customer.email]))
    else None
  }

  /** The prediction the task looks at: the one stored for the invoice, if any. */
  function FirstPrediction(table: map<Uuid, Prediction>, invoiceId: Uuid): (p: Option<Prediction>)
    ensures p.Some? <==> invoiceId in table
    ensures p.Some? ==> p.value == table[invoiceId]
  {
    if invoiceId in table then Some(table[invoiceId]) else None
  }

  /** The outgoing mail transport. */
  class Mailer {
    var outbox: seq<Email>

    constructor ()
      ensures outbox == []
    {
      outbox := [];
    }

    method SendMail(email: Email)
      modifies this
      ensures outbox == old(outbox) + [email]
    {
      outbox := outbox + [email];
    }
  }

  /** At most one email is sent per run, and only a due reminder. */
  method SendPaymentReminder(db: Database, mailer: Mailer, invoiceId: Uuid) returns (r: Result<(), TaskError>)
    requires db.Valid()
    modifies mailer
    ensures invoiceId !in db.invoices ==> r == Failure(InvoiceDoesNotExist) && mailer.outbox == old(mailer.outbox)
    ensures invoiceId in db.invoices ==>
      var invoice := db.invoices[invoiceId];
      var due := Reminder(invoice, db.customers[invoice.customer], FirstPrediction(db.predictions, invoiceId));
      && r == Success(())
      && mailer.outbox == old(mailer.outbox) + (if due.Some? then [due.value] else [])
  {
    if invoiceId !in db.invoices {
      return Failure(InvoiceDoesNotExist);
    }
    var invoice := db.invoices[invoiceId];
    var prediction := FirstPrediction(db.predictions, invoiceId);
    var email := Reminder(invoice, db.customers[invoice.customer], prediction);
    if email.Some? {
      mailer.SendMail(email.value);
    }
    r := Success(());
  }
}
