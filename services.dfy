/**
 * `PredictionService.generate_prediction`: the late-payment classifier is
 * applied to an invoice, the expected payment date and the risk level are
 * derived from its answer, and the prediction for the invoice is created or
 * replaced.
 *
 * The classifier (polynomial expansion, scaling and the gradient-boosted
 * model, loaded once for the process) is opaque: `predict` gives the label
 * (late or not) and `predictProba` the row of class probabilities for the
 * input pair (credit score, amount).
 */
module Services {
  import opened Wrappers
  import opened Uuids
  import opened Models

  /** The model input, in the column order credit_score, amount. */
  datatype Features = Features(creditScore: int, amount: Cents)

  /** A row of `predict_proba`: element 0 for "on time", element 1 for "late". */
  datatype ProbabilityRow = ProbabilityRow(onTime: real, late: real)

  datatype Classifier = Classifier(predict: Features -> bool, predictProba: Features -> ProbabilityRow)

  /** Days added to the due date when the invoice is predicted to be paid late. */
  const LateOffsetDays := 10

  const HighRisk := "high"
  const LowRisk := "low"

  /** What `generate_prediction` returns. */
  datatype PredictionResult = PredictionResult(
    invoiceId: string, paymentProbability: real, expectedDate: Day, riskLevel: string)

  datatype ServiceError = InvoiceDoesNotExist

  function ModelInput(invoice: Invoice, customer: Customer): Features {
    Features(customer.creditScore, invoice.amount)
  }

  function ExpectedDate(dueDate: Day, isLate: bool): (d: Day)
    ensures d == dueDate + LateOffsetDays <==> isLate
    ensures d == dueDate <==> !isLate
  {
    if isLate then dueDate + LateOffsetDays else dueDate
  }

  function RiskLevel(isLate: bool): (r: string)
    ensures r == HighRisk <==> isLate
    ensures r == LowRisk <==> !isLate
  {
    if isLate then HighRisk else LowRisk
  }

  /** The prediction derived from the classifier's answer for the invoice. */
  function Derive(clf: Classifier, invoice: Invoice, customer: Customer): (p: Prediction)
    ensures var x := Features(customer.creditScore, invoice.amount);
      && (p.riskLevel == HighRisk <==> clf.predict(x))
      && (p.riskLevel == LowRisk <==> !clf.predict(x))
      && (p.expectedDate == invoice.dueDate + LateOffsetDays <==> clf.predict(x))
      && (p.expectedDate == invoice.dueDate <==> !clf.predict(x))
      && p.paymentProbability == clf.predictProba(x).late
  {
    var x := ModelInput(invoice, customer);
    var isLate := clf.predict(x);
    Prediction(clf.predictProba(x).late, ExpectedDate(invoice.dueDate, isLate), RiskLevel(isLate))
  }

  /** The classifier is consulted only at the pair (credit score, amount). */
  lemma DeriveDependsOnModelInput(c1: Classifier, c2: Classifier, invoice: Invoice, customer: Customer)
    requires var x := Features(customer.creditScore, invoice.amount);
      c1.predict(x) == c2.predict(x) && c1.predictProba(x).late == c2.predictProba(x).late
    ensures Derive(c1, invoice, customer) == Derive(c2, invoice, customer)
  {
  }

  /** The risk level is always one of the two levels, and the date moves only for high risk. */
  lemma DeriveConsistent(clf: Classifier, invoice: Invoice, customer: Customer)
    ensures var p := Derive(clf, invoice, customer);
      && (p.riskLevel == HighRisk || p.riskLevel == LowRisk)
      && (p.riskLevel == HighRisk <==> p.expectedDate == invoice.dueDate + LateOffsetDays)
  {
  }

  /** The returned record: the invoice id in string form and the stored prediction's fields. */
  function ResultOf(invoiceId: Uuid, p: Prediction): (r: PredictionResult)
    ensures r.invoiceId == UuidString(invoiceId) && |r.invoiceId| == 36
    ensures r.paymentProbability == p.paymentProbability
    ensures r.expectedDate == p.expectedDate
    ensures r.riskLevel == p.riskLevel
  {
    PredictionResult(UuidString(invoiceId), p.paymentProbability, p.expectedDate, p.riskLevel)
  }

  /** Results for different invoices carry different invoice ids. */
  lemma ResultIdentifiesInvoice(a: Uuid, b: Uuid, p: Prediction, q: Prediction)
    requires ResultOf(a, p).invoiceId == ResultOf(b, q).invoiceId
    ensures a == b
  {
    UuidStringInjective(a, b);
  }

  /** The prediction table after the upsert for `invoiceId`. */
  function Upsert(table: map<Uuid, Prediction>, invoiceId: Uuid, p: Prediction): (t: map<Uuid, Prediction>)
    ensures t.Keys == table.Keys + {invoiceId}
    ensures t[invoiceId] == p
    ensures forall id :: id in table && id != invoiceId ==> t[id] == table[id]
  {
    table[invoiceId := p]
  }

  /** Recomputing replaces the earlier prediction: only the latest survives, and the row count does not grow. */
  lemma UpsertReplaces(table: map<Uuid, Prediction>, invoiceId: Uuid, p: Prediction, q: Prediction)
    ensures Upsert(Upsert(table, invoiceId, p), invoiceId, q) == Upsert(table, invoiceId, q)
    ensures |Upsert(Upsert(table, invoiceId, p), invoiceId, q)| == |Upsert(table, invoiceId, p)|
  {
  }

  class PredictionService {
    /** The model artifacts, loaded once and shared by every call. */
    const classifier: Classifier

    constructor (classifier: Classifier)
      ensures this.classifier == classifier
    {
      this.classifier := classifier;
    }

    /**
     * `generate_prediction(invoice_id)`: an unknown invoice fails before
     * anything is written; otherwise the invoice's prediction is created or
     * replaced, every other prediction is kept, and the stored values are
     * returned.
     */
    method GeneratePrediction(db: Database, invoiceId: Uuid) returns (r: Result<PredictionResult, ServiceError>)
      requires db.Valid()
      modifies db`predictions
      ensures db.Valid()
      ensures invoiceId !in db.invoices ==>
        r == Failure(InvoiceDoesNotExist) && db.predictions == old(db.predictions)
      ensures invoiceId in db.invoices ==>
        var invoice := db.invoices[invoiceId];
        var p := Derive(classifier, invoice, db.customers[invoice.customer]);
        && db.predictions == Upsert(old(db.predictions), invoiceId, p)
        && r == Success(ResultOf(invoiceId, db.predictions[invoiceId]))
    {
      if invoiceId !in db.invoices {
        return Failure(InvoiceDoesNotExist);
      }
      var invoice := db.invoices[invoiceId];
      var customer := db.customers[invoice.customer];
      var x := ModelInput(invoice, customer);
      var isLate := classifier.predict(x);
      var probability := classifier.predictProba(x);
      var expectedDate := ExpectedDate(invoice.dueDate, isLate);
      var riskLevel := RiskLevel(isLate);
      db.predictions := Upsert(db.predictions, invoiceId, Prediction(probability.late, expectedDate, riskLevel));
      var stored := db.predictions[invoiceId];
      r := Success(ResultOf(invoiceId, stored));
    }
  }
}
