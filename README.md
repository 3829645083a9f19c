# PayPredict core, modelled in Dafny

PayPredict is an invoice-management service. It has a Django backend and a React dashboard. A pre-trained classifier predicts whether an invoice will be paid late. This project models the decision logic around that classifier and proves properties of it:

- **Authentication** (`backend/api/auth.py`). The API reads the Bearer token from the `Authorization` header. It picks the signing key whose `kid` matches the token's header from the identity provider's key set (JWKS). It decodes the token and maps decoding errors to the 401 messages. The wrapped view runs only after a successful decode. Header splitting follows Python's `str.split()` exactly (module `Text`).
- **Prediction** (`backend/api/services.py`). The classifier's label and late-payment probability give the stored risk level, expected payment date and probability. The prediction table is an upsert keyed by invoice. The returned record mirrors the stored row and gives the invoice id in UUID string form (module `Uuids`).
- **Payment reminder** (`backend/api/tasks.py`). A pending invoice with a high-risk prediction gets exactly one reminder email, with a fixed sender, the customer as sole recipient and a subject naming the invoice.
- **Invoice table** (`frontend/components/InvoiceTable.tsx`). A case-insensitive filter on customer name or status keeps the original order. The rules for status and risk badge colours, the "N/A" prediction cells and the "No invoices found" row are modelled too.

Files: `wrappers.dfy` (Option, Result), `text.dfy`, `uuids.dfy`, `auth.dfy`, `models.dfy` (the database tables as a class), `services.dfy`, `tasks.dfy`, `invoice_table.dfy`.

These pieces are parameters:
- the JWKS download (a sequence of keys);
- reading the unverified token header (`readHeader`: unreadable, or a header with or without a `kid`);
- JWT verification (`decode`, which returns a payload, an expired signature, a claims error or another error);
- the classifier (`predict` and `predictProba` on the pair credit score, amount).

Dates are day numbers. Amounts are integers in hundredths, matching the two decimal places of the amount column. Sending mail appends to an outbox.

## Model

| member | source | states |
|---|---|---|
| Text.SplitWords | backend/api/auth.py:11 | every element of `str.split()`'s result is a non-empty word without whitespace |
| Text.SplitLeadingSpace | backend/api/auth.py:11 | leading whitespace does not change the split |
| Text.SplitTrailingSpace | backend/api/auth.py:11 | trailing whitespace does not change the split |
| Text.SplitJoin | backend/api/auth.py:11 | words joined by any non-empty run of whitespace split back into exactly those words |
| Text.SplitWord | backend/api/auth.py:11 | a word followed by whitespace or the end is the first element of the split |
| Text.SplitOfSpace | backend/api/auth.py:11 | an empty or all-whitespace header splits into no words |
| Text.ContainsAt | frontend/components/InvoiceTable.tsx:25-26 | `includes` holds iff the filter text occurs at some offset |
| Auth.GetTokenAuthHeader | backend/api/auth.py:7-14 | fails with 'Authorization header is missing' exactly when there is no header; a returned token is one whitespace-free word |
| Auth.HeaderOfWords | backend/api/auth.py:11-14 | for a header of words with any whitespace before and after them and one repeated whitespace separator between them: no words gives an index error; a first word other than "bearer" (any case) gives 'Authorization header must start with Bearer'; "bearer" alone gives an index error; otherwise the token is the second word and later words are ignored |
| Auth.HeaderOfTwoWords | backend/api/auth.py:11-14 | for any header of at least two words, whatever whitespace stands before, between and after them: a first word other than "bearer" (any case) gives 'Authorization header must start with Bearer', otherwise the token is the second word and the rest is ignored |
| Auth.BearerAnyCase | backend/api/auth.py:12-14 | "Bearer" in any letter case followed by a word yields that word |
| Auth.BearerExamples | backend/api/auth.py:12-14 | "bearer X", "BEARER X" and "Bearer X" all yield "X" |
| Auth.ShortHeaderExamples | backend/api/auth.py:11-14 | "Bearer" alone and the empty header fail with an index error, not a token |
| Auth.LastMatchIsLast | backend/api/auth.py:24-33 | no key is selected iff no entry's kid matches; a selected key is built from an entry that matches, with no matching entry after it |
| Auth.SelectKey | backend/api/auth.py:24-33 | an empty key set leaves `rsa_key` empty; a token header without `kid` raises KeyError in the first pass over a non-empty key set; otherwise the loop leaves `rsa_key` as the kty, kid, use, n and e of the last entry whose kid matches, or empty if none matches |
| Auth.VerifyToken | backend/api/auth.py:35-49 | a decoded payload passes; expired gives 'Token is expired', a claims error gives 'Invalid claims', any other error gives 'Invalid token' |
| Auth.NoMatchingKeyFails | backend/api/auth.py:23-51 | with a readable token header, an empty key set or a `kid` that no entry carries makes the request fail with 'No matching key found', whatever the decoder would say |
| Auth.KidlessTokenFails | backend/api/auth.py:23-51 | a token header without `kid` fails with the KeyError of the loop when the key set has an entry, and with 'No matching key found' when it is empty |
| Auth.KidlessTokenExamples | backend/api/auth.py:7-51 | "Bearer tok" with a kid-less token: 'No matching key found' for the empty key set, the KeyError for a one-entry key set |
| Auth.PassesOnlyAfterDecode | backend/api/auth.py:34-52 | a request passes only if the decoder, given the header's token and the last matching key, returned the payload the view gets |
| Auth.RequiresAuth | backend/api/auth.py:16-53 | on success the payload is stored on the request and the view's result is returned; on failure the view is not called and the request is unchanged |
| Uuids.UuidString | backend/api/services.py:47 | `str(uuid)` is 36 characters with hyphens at positions 8, 13, 18 and 23 only |
| Uuids.UuidStringInjective | backend/api/services.py:47 | distinct UUIDs have distinct string forms |
| Services.ExpectedDate | backend/api/services.py:31-35 | the expected date is the due date plus 10 days iff the invoice is predicted late, otherwise the due date |
| Services.RiskLevel | backend/api/services.py:36 | the risk level is 'high' iff predicted late, otherwise 'low' |
| Services.Derive | backend/api/services.py:18-43 | on the input (credit_score, amount): risk 'high' iff late, expected date moved by 10 days iff late, stored probability is the "late" element of `predict_proba` |
| Services.DeriveDependsOnModelInput | backend/api/services.py:18-29 | the derived prediction depends on the classifier only at the pair (customer credit score, invoice amount) |
| Services.DeriveConsistent | backend/api/services.py:31-36 | the risk level is 'high' or 'low', and 'high' exactly when the expected date moved |
| Services.ResultOf | backend/api/services.py:46-51 | the returned record's `invoice_id` is `str(invoice_id)` (36 characters), with the stored probability, date and risk level |
| Services.ResultIdentifiesInvoice | backend/api/services.py:47 | results for different invoices carry different invoice ids |
| Services.Upsert | backend/api/services.py:38-45 | after the upsert the invoice has exactly the new prediction and every other invoice's prediction is unchanged |
| Services.UpsertReplaces | backend/api/services.py:38-45 | recomputing overwrites: a second upsert leaves only the latest prediction and does not add a row |
| Services.PredictionService.GeneratePrediction | backend/api/services.py:15-51 | an unknown invoice fails before any write; otherwise the invoice's prediction is created or replaced with the derived values, all other predictions are kept, and the stored values are returned |
| Tasks.Reminder | backend/api/tasks.py:9-24 | an email is due iff the invoice is 'pending', a prediction exists and its risk level is 'high'; it comes from 'from@paypredict.com', goes to exactly the customer's email, and its subject is "Payment Reminder: Invoice " followed by the invoice id |
| Tasks.FirstPrediction | backend/api/tasks.py:8 | the prediction consulted is the one stored for the invoice, or none |
| Tasks.Mailer.SendMail | backend/api/tasks.py:18-24 | sending appends exactly that email to the outbox |
| Tasks.SendPaymentReminder | backend/api/tasks.py:6-24 | an unknown invoice fails and sends nothing; otherwise the outbox grows by the due reminder, or by nothing when none is due |
| InvoiceTable.FilterInvoices | frontend/components/InvoiceTable.tsx:23-27 | an invoice is listed iff it is in the input and its lower-cased customer name or status contains the lower-cased filter; every copy of a matching invoice is kept and no copy of another one (multiset counts); the result is no longer than the input |
| InvoiceTable.FilterIsSubsequence | frontend/components/InvoiceTable.tsx:23-27 | the filtered list is a subsequence of the input: nothing added, order kept |
| InvoiceTable.EmptyFilterKeepsAll | frontend/components/InvoiceTable.tsx:23-38 | the empty filter, as set by "Clear", keeps every invoice |
| InvoiceTable.FilterIdempotent | frontend/components/InvoiceTable.tsx:23-27 | filtering the filtered list with the same text changes nothing |
| InvoiceTable.FilterIgnoresCase | frontend/components/InvoiceTable.tsx:25-26 | filters that differ only in the case of ASCII letters give the same list |
| InvoiceTable.StatusBadge | frontend/components/InvoiceTable.tsx:65-71 | 'paid' is green, 'pending' is yellow, any other status is red |
| InvoiceTable.RiskBadge | frontend/components/InvoiceTable.tsx:89-93 | 'low' is green, any other risk level is red |
| InvoiceTable.BadgeClassesDistinct | frontend/components/InvoiceTable.tsx:65-93 | the green, yellow and red badge class strings are pairwise different |
| InvoiceTable.RenderRow | frontend/components/InvoiceTable.tsx:57-101 | the customer name, amount, due date and status are the invoice's; the status badge carries the class string of the status colour; an invoice without a prediction shows N/A in all three prediction cells; with one, they show its probability, date, and risk level with the class string of the risk colour |
| InvoiceTable.RenderBody | frontend/components/InvoiceTable.tsx:55-109 | an empty list renders one "No invoices found" row spanning 7 columns; otherwise one row per invoice, in order |
| InvoiceTable.NoInvoicesRowIffNothingMatches | frontend/components/InvoiceTable.tsx:23-108 | the "No invoices found" row appears exactly when no invoice matches the filter |
| InvoiceTable.ClearedTableListsAll | frontend/components/InvoiceTable.tsx:38-102 | after "Clear" every invoice has its row, in order |

## Left out

- Fetching the JWKS over HTTP and JWT cryptography (`jwt.get_unverified_header`, `jwt.decode` with its algorithm, audience and issuer) are parameters. So is any error they raise outside the `try`.
- A JWKS entry without one of the members kty, kid, use, n or e raises `KeyError` in the source. The model's `Jwk` always has all five.
- Auth.GetTokenAuthHeader: lower-cases ASCII letters only, where Python's `str.lower()` is Unicode-aware. No non-ASCII character lower-cases to a letter of "bearer", so the comparison with "bearer" gives the same answer either way.
- InvoiceTable.FilterInvoices: lower-cases ASCII letters only, where JavaScript's `toLowerCase` is Unicode-aware. Filters with non-ASCII letters may match differently.
- The classifier, including polynomial expansion, scaling and gradient-boosted inference, is an opaque function. So is the `float()` conversion of the amount. Probabilities are reals with no claim that they lie in [0, 1], because the source stores whatever `predict_proba` gives.
- The source does not check the feature order of the loaded artifacts at startup, and neither does the model. A mismatch would fail inside the scaler at the first prediction.
- Services.ResultOf: returns the expected date as a day number, not its ISO text (`isoformat()` is a library call).
- Concurrent `update_or_create` calls are not modelled. The upsert is one sequential map update.
- Reminder emails: the body with its `%.1f` percentage, the mail transport and its errors (`fail_silently=False`) are not modelled. Celery scheduling is not modelled either.
- Django models, DRF views, urls and serializers, and the CRUD endpoints are not modelled, apart from the three tables the core reads and writes. There is no operation to create customers or invoices; the database starts from given tables.
- The Prediction model class is missing from the backend's model definitions, although the services and tasks modules import it. The model builds it from the three fields they use. It is keyed one-to-one by invoice, as the upsert implies. With at most one row per invoice, the task's `.filter(...).first()` is a table lookup.
- The frontend's `Invoice` type declares no `prediction` field, but the table reads one and the serializer supplies it. The model includes it as optional.
- In the invoice table, JSX rendering, React state (`useState`), and number and date formatting (`toFixed`, `toLocaleDateString`) are not modelled. Cells carry the raw values.
- The network and authentication UI of the frontend (the API client, dashboard and auth guards) is not modelled.
- The offline training script (random synthetic data, model fitting, grid search, file output) is not modelled.
