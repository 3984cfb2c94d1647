# Electrohold invoice importer — a Dafny model

The importer `importers/electrohold/electrohold.py` collects electricity
invoices from a mailbox. It does three pieces of pure, sequential work, and
this project models each as immutable data and total functions:

- **The mailbox scan** (`fetch_latest_bills`). The scan walks the unseen
  messages and keeps those whose subject is text holding the phrase
  `Електрохолд Продажби - Фактура`. In each such message it walks the
  attachments. An attachment becomes a bill when its content type is exactly
  `application/pdf` and its bytes start with `%PDF`. A string payload is
  base64-decoded first, and the attachment is skipped when decoding fails.
  Each bill issues one `move` of its message and appends `(filename, bytes)`.
  An attachment of type `application/pdf` with no payload makes
  `None.startswith` raise. The broad handler then ends the scan with what
  was collected so far.
- **The invoice parser** (`parse_pdf`). It runs five leftmost regular
  expression searches over the extracted text: the billing period, the day
  and night tariff rows, the total and the amount due. It converts the two
  `DD.MM.YYYY` dates with `strptime("%d.%m.%Y")` and `isoformat()`. It reads
  the three kWh figures with `int()` and the amount with
  `float(s.replace(',', '.'))`. It returns a record or raises; there is never
  a partial record.
- **The InfluxDB point** (`write_to_influx`). It has the measurement
  `electricity_invoice` and four fields. Its timestamp is
  `end_date + "T00:00:00Z"`, a `date-time` of section 5.6 of RFC 3339.

Modules, one file each:

- `Wrappers`: `Option` and `Result`.
- `Text`: ASCII digits, zero padding and substring search.
- `Regex`: patterns made of literals and `+` runs, a greedy matcher, the
  declarative meaning of a match, and `re.search` as the first position where
  the greedy matcher succeeds.
- `Dates`: strptime, isoformat, and RFC 3339 full-dates.
- `Amount`: the amount as an exact decimal.
- `Invoice`: `parse_pdf` on the text.
- `Scanner`: the scan as a left fold, a loop method that implements it, and
  a reference definition of the bills it should deliver.
- `Publish`: the point, and an RFC 3339 date-time reader for its timestamp.

`DateExamples`, `InvoiceExamples` and `ScannerExamples` work through
concrete inputs.

Behaviour of the code worth knowing:

- A string payload that does not decode is skipped. It is not re-read as
  raw bytes.
- A message is moved once per valid PDF attachment, not once per message.
- Every matching unseen message is drained.
- A message with no valid PDF is not moved.

## Model

All sources are in `importers/electrohold/electrohold.py`.

| member | source | states |
|---|---|---|
| Regex.RunEnd | importers/electrohold/electrohold.py:136-140 | A `+` run of a character class taken greedily stops exactly at the first character outside the class. |
| Regex.Greedy | importers/electrohold/electrohold.py:136-140 | When the left-to-right greedy matcher succeeds, its cuts are a real match of the pattern, and the final run cannot be extended. |
| Regex.GreedyComplete | importers/electrohold/electrohold.py:136-140 | For a pattern whose runs are each stopped by the next token, the greedy matcher finds any match that exists. It has the same inner cuts and a final run at least as long, as Python's backtracking engine does for these five patterns. |
| Regex.GreedyIffMatches | importers/electrohold/electrohold.py:136-140 | For such patterns, the greedy matcher succeeds at a position exactly when the pattern matches there. |
| Regex.SearchFromSkips | importers/electrohold/electrohold.py:136-140 | Scanning from a position never passes a position where the matcher succeeds; a failed scan means no position from there on matches. |
| Regex.SearchFromStops | importers/electrohold/electrohold.py:136-140 | The scan returns the first position where the matcher succeeds, with its cuts. |
| Regex.SearchNone | importers/electrohold/electrohold.py:136-140 | `re.search` returns `None` exactly when the pattern matches at no position of the text. |
| Regex.SearchFindsLeftmost | importers/electrohold/electrohold.py:136-140 | A search result is the leftmost match, with the longest final run there. |
| Regex.LeftmostIsSearched | importers/electrohold/electrohold.py:136-140 | Conversely, the leftmost match with the longest final run is what the search returns. |
| Regex.FirstGreedyIsSearched | importers/electrohold/electrohold.py:136-140 | If the matcher fails everywhere before `p` and succeeds at `p`, the search reports `p`. |
| Regex.NoMatchBeforeLabel | importers/electrohold/electrohold.py:136-140 | A pattern that starts with a label cannot match where the label's first letter is absent. |
| Regex.RunGroup | importers/electrohold/electrohold.py:136-140 | A capture group over a `+` run is non-empty, and every character of it is in the run's class. |
| Regex.MatchNeedsLiteral | importers/electrohold/electrohold.py:136-140 | A match of a labelled pattern means the label occurs in the text. |
| Dates.SplitAtDots | importers/electrohold/electrohold.py:145-146 | Cutting at the first two dots gives three pieces. Joining them with dots rebuilds the input, and the first two pieces contain no dot. |
| Dates.SplitJoin | importers/electrohold/electrohold.py:145-146 | Inverse of the cut: pieces without dots, joined by dots, are cut back into the same pieces. |
| Dates.ParseDayMonthYear | importers/electrohold/electrohold.py:145-146 | `strptime("%d.%m.%Y")` only yields dates that exist: years 1-9999, months 1-12, and leap years honoured. |
| Dates.DayDirectiveForms | importers/electrohold/electrohold.py:145-146 | The texts `%d` accepts for day `n` are exactly `Pad(n,2)`, and for days below ten also one digit or a space and a digit. |
| Dates.DayFormsMatch | importers/electrohold/electrohold.py:145-146 | Every listed day spelling is accepted by `%d` and reads as its day. |
| Dates.DayMatchForms | importers/electrohold/electrohold.py:145-146 | Every text `%d` accepts for day `n` is one of the listed spellings. |
| Dates.MonthDirectiveForms | importers/electrohold/electrohold.py:145-146 | The texts `%m` accepts for month `n` are exactly `Pad(n,2)`, and for months below ten also one digit. |
| Dates.MonthFormsMatch | importers/electrohold/electrohold.py:145-146 | Every listed month spelling is accepted by `%m` and reads as its month. |
| Dates.MonthMatchForms | importers/electrohold/electrohold.py:145-146 | Every text `%m` accepts for month `n` is one of the listed spellings. |
| Dates.DirectivesAreFields | importers/electrohold/electrohold.py:145-146 | No directive's text contains a dot, so the separators are the first two dots. |
| Dates.ParseDayMonthYearSpellings | importers/electrohold/electrohold.py:145-146 | strptime yields `d` exactly when `d` is a real date and the text is one of its spellings (day, dot, month, dot, four-digit year). |
| Dates.ParsedIsSpelling | importers/electrohold/electrohold.py:145-146 | Every parsed text is a spelling of the date it yields. |
| Dates.SpellingParses | importers/electrohold/electrohold.py:145-146 | Every spelling of a real date parses to that date. |
| Dates.ParseFullDate | importers/electrohold/electrohold.py:146 | The reader of section 5.6 of RFC 3339 full-dates accepts only `YYYY-MM-DD` texts naming a day that exists in its month. |
| Dates.IsoFormatRoundTrip | importers/electrohold/electrohold.py:145-146 | `isoformat()` of a real date is an RFC 3339 full-date that reads back as the same date. |
| Dates.FullDateOf | importers/electrohold/electrohold.py:146 | Four, two and two digits naming a real date form a full-date of that date. |
| Dates.FullDateIsIsoFormat | importers/electrohold/electrohold.py:146 | Conversely, every full-date is the `isoformat()` of the date it names. |
| Dates.ConvertDate | importers/electrohold/electrohold.py:143-146 | The conversion succeeds exactly when strptime does, and the ISO text names the parsed date. |
| Dates.TrailingDotFails | importers/electrohold/electrohold.py:136-146 | A sentence dot captured by `[\d.]+` after the year makes the conversion fail. |
| DateExamples.ConvertDateExample | importers/electrohold/electrohold.py:145-146 | `05.03.2024` and the unpadded `5.3.2024` both become `2024-03-05`. |
| DateExamples.CalendarValidation | importers/electrohold/electrohold.py:145-146 | `29.02.2023` is rejected, and `29.02.2024` becomes `2024-02-29`. |
| DateExamples.JanuaryPeriod | importers/electrohold/electrohold.py:145-146 | `01.01.2024` and `31.01.2024` become `2024-01-01` and `2024-01-31`. |
| Amount.ReplaceCommas | importers/electrohold/electrohold.py:154 | `replace(',', '.')` turns each comma into a dot, keeps every other character and keeps the length. |
| Amount.AmountAcceptance | importers/electrohold/electrohold.py:140-154 | On a `[\d,]+` capture, conversion succeeds exactly when there is at most one comma and at least one digit. |
| Amount.CommaIsDecimalSeparator | importers/electrohold/electrohold.py:154 | `ip,fp` converts to the digits of `ip` followed by `fp`, scaled by the length of `fp`. |
| Amount.CommaDecimalValue | importers/electrohold/electrohold.py:154 | The value of `ip,fp` is `ip + fp / 10^len(fp)`. |
| Amount.ToRealSplit | importers/electrohold/electrohold.py:154 | Units split at the scale are the whole part plus the fraction. |
| Amount.FormatAmountRoundTrip | importers/electrohold/electrohold.py:154 | Converting an amount as the invoice prints it gives back the same decimal. |
| Amount.WholeAmount | importers/electrohold/electrohold.py:154 | A comma-free digit string converts to its integer value. |
| Amount.AmountExample | importers/electrohold/electrohold.py:154 | `45,67` converts to 45.67. |
| Amount.AmountRejections | importers/electrohold/electrohold.py:154 | `1,2,3` (two commas) and `,` (no digit) do not convert. |
| Invoice.PatternsSeparated | importers/electrohold/electrohold.py:136-140 | Every run in the five patterns is stopped by the token after it, so greedy matching agrees with backtracking. |
| Invoice.TariffSeparated | importers/electrohold/electrohold.py:137-138 | The tariff-row pattern has that property whatever the row's name. |
| Invoice.ParseInt | importers/electrohold/electrohold.py:151-153 | `int()` of a group succeeds exactly on a non-empty digit string of at most 4300 digits (CPython's default `sys.int_info.default_max_str_digits`; a longer one raises `ValueError`), and writing the value back with as many digits gives the group. |
| Invoice.ReadPeriod | importers/electrohold/electrohold.py:136-146 | With no period match the failure names the billing period. A success holds the two converted groups, and both are RFC 3339 full-dates. |
| Invoice.ReadNumber | importers/electrohold/electrohold.py:151-153 | With no match the failure names that field. A success is `int()` of the group. |
| Invoice.ReadAmount | importers/electrohold/electrohold.py:154 | With no match the failure names the amount due. A success is the converted group. |
| Invoice.Parse | importers/electrohold/electrohold.py:132-155 | Every record holds two RFC 3339 full-dates. |
| Invoice.AssembleSuccessShape | importers/electrohold/electrohold.py:143-155 | A record needs every search to have found a match. Each record field is the conversion of its match's group. |
| Invoice.AssembleSucceeds | importers/electrohold/electrohold.py:143-155 | Conversely, when all five matches exist and every group converts, a record is built. |
| Invoice.SearchedNumber | importers/electrohold/electrohold.py:137-153 | The `\d+` group of a search result is the whole non-empty digit run at the leftmost match, and it converts exactly when it has at most 4300 digits. |
| Invoice.ParseReadsLeftmostMatches | importers/electrohold/electrohold.py:136-155 | The dates, the three kWh figures and the amount come from the leftmost match of their patterns, and each kWh figure is a maximal digit run. |
| Invoice.ParseNeedsAllMatches | importers/electrohold/electrohold.py:136-155 | A record needs all five searches to succeed. |
| Invoice.ParseSuccessHasAllFields | importers/electrohold/electrohold.py:136-155 | A record means that all five patterns occur, that the leftmost period and amount matches convert, and that each leftmost kWh group has at most 4300 digits. |
| Invoice.AllFieldsParse | importers/electrohold/electrohold.py:136-155 | Conversely, those conditions give a record. |
| Invoice.PeriodSearched | importers/electrohold/electrohold.py:136-146 | When the leftmost period match converts, the search finds it and both dates convert. |
| Invoice.CostSearched | importers/electrohold/electrohold.py:140-154 | When the leftmost amount match converts, the search finds it and the amount converts. |
| Invoice.NumberSearched | importers/electrohold/electrohold.py:137-153 | A number pattern whose leftmost group has at most 4300 digits is found, and its group converts. |
| Invoice.ParseAllOrNothing | importers/electrohold/electrohold.py:136-155 | All or nothing: a record comes out exactly when all five patterns match, the leftmost period and amount matches convert, and each leftmost kWh group has at most 4300 digits. |
| Invoice.MissingLabelFails | importers/electrohold/electrohold.py:136-143 | Text without one of the five labels gives no record. Without `от ` the failure is the missing billing period. |
| InvoiceExamples.SampleLinesParse | importers/electrohold/electrohold.py:132-155 | A text laid out as the five-line sample parses to January 2024, 120, 80 and 200 kWh, and 45,67 due. |
| InvoiceExamples.SampleInvoice | importers/electrohold/electrohold.py:132-155 | The sample invoice text parses to that record. |
| Scanner.Examine | importers/electrohold/electrohold.py:94-111 | An attachment is accepted exactly when it is a valid PDF. Its bytes are what the payload carries (decoded if it is a string) and start with `%PDF`. The scan aborts exactly on an `application/pdf` attachment without payload. |
| Scanner.ScanAttachments | importers/electrohold/electrohold.py:88-117 | The inner loop only appends, to the bills and to the moves alike. It adds one move per bill, and every new bill starts with `%PDF`. |
| Scanner.ScanMessages | importers/electrohold/electrohold.py:70-117 | The scan issues exactly as many moves as it returns bills, and every bill starts with `%PDF`. |
| Scanner.ScanAttachmentsLoop | importers/electrohold/electrohold.py:88-117 | The attachment loop computes the inner fold. |
| Scanner.FetchLatestBills | importers/electrohold/electrohold.py:55-125 | The loops compute the fold: the bills and moves of the scan, as many moves as bills, all starting with `%PDF`. |
| Scanner.AttachmentsAbortSticks | importers/electrohold/electrohold.py:97-125 | Once the handler fires, later attachments change nothing. |
| Scanner.MessagesAbortSticks | importers/electrohold/electrohold.py:70-125 | Once the handler fires, later messages change nothing. |
| Scanner.AttachmentsAbortWhen | importers/electrohold/electrohold.py:97-123 | The inner loop aborts exactly when some attachment of type `application/pdf` has no payload. |
| Scanner.ScanAbortsWhen | importers/electrohold/electrohold.py:75-123 | The scan aborts exactly when some invoice mail has an `application/pdf` attachment without payload. |
| Scanner.AttachmentsFollowValidPdfs | importers/electrohold/electrohold.py:88-117 | One message delivers a prefix of its valid PDFs in attachment order, and all of them unless the handler fired. |
| Scanner.ScanFollowsDeliveries | importers/electrohold/electrohold.py:70-125 | The bills are a prefix of the reference deliveries in message order, then attachment order, each with one move of its message's uid. After an abort, what was collected is kept. |
| Scanner.ScanDeliversAll | importers/electrohold/electrohold.py:70-117 | Without an abort, the bills and moves are exactly the reference deliveries. |
| Scanner.ValidPdfsCount | importers/electrohold/electrohold.py:88-116 | A message delivers exactly as many bills as it has valid attachments. |
| Scanner.MoveCount | importers/electrohold/electrohold.py:113-117 | With distinct uids and no abort, a message is moved once per valid PDF if it is an invoice mail, and never otherwise. |
| Scanner.MovedOnlyWithValidPdf | importers/electrohold/electrohold.py:75-113 | A moved uid belongs to a message whose subject is text holding the marker and which has a valid PDF. Other messages are never moved. |
| ScannerExamples.MailboxExample | importers/electrohold/electrohold.py:70-117 | An invoice mail with five attachments, two of them valid, gives two bills and two moves. Messages with another subject, or a subject that is not text, give nothing. |
| ScannerExamples.AbortExample | importers/electrohold/electrohold.py:97-125 | A payload-less PDF attachment ends the scan before a later invoice mail is read. |
| Publish.ToPoint | importers/electrohold/electrohold.py:165-170 | The point has measurement `electricity_invoice` and exactly the four fields. Its time is the end date followed by ten more characters. |
| Publish.ParseDateTime | importers/electrohold/electrohold.py:170 | The reader of section 5.6 of RFC 3339 date-times accepts only valid hours, minutes and seconds, and a full-date prefix. |
| Publish.MidnightUtc | importers/electrohold/electrohold.py:170 | `end_date + "T00:00:00Z"` is an RFC 3339 date-time: midnight UTC of the end date. |
| Publish.PointRoundTrip | importers/electrohold/electrohold.py:165-170 | The point keeps the end date and the four figures unchanged: they read back into the record. |
| Publish.ParsedInvoicePoint | importers/electrohold/electrohold.py:148-170 | Every parsed record becomes a point stamped at midnight UTC of its end date, holding the record's figures. |

## Left out

- IMAP session handling is not modelled: connecting, login, folder
  selection, the UNSEEN search and fetching (lines 60-72). The mailbox is an
  input sequence of messages, and `client.move` is an entry in a log of
  uids.
- Errors raised by the network or the IMAP library inside the broad handler
  (lines 122-125) are not modelled. The only abort modelled is the one the
  code itself raises on a payload-less PDF attachment. `Scanner.ScanFollowsDeliveries`
  shows that what is kept after an abort is a prefix of the bills.
- RFC 822 parsing by `mailparser` (line 73) and RFC 2047 subject decoding
  (lines 48-53) are not modelled. A subject is either its decoded text or a
  value of another type, and a missing header is the empty text.
- `base64.b64decode` (line 102) is a parameter of the scan: an arbitrary
  partial function from text to bytes.
- PDF text extraction by pdfplumber (lines 133-134) is not modelled. The
  parser takes the joined page text.
- Text.IsDigit: `\d` is restricted to the ASCII digits, while Python's
  Unicode-aware class also admits other decimal digits. `Text.IsSpace` is
  likewise restricted to six whitespace characters, while Python's `\s` also
  admits the ASCII separators `\x1c`-`\x1f` and non-ASCII blanks such as the
  no-break space. The model assumes the text uses none of these extra
  characters; where it does, the model can report a missing field, or read a
  shorter digit run or a later match, where the program reads other values.
- Amount.ParseAmount: the amount is an exact decimal, not a binary float.
  Only the part of `float()` that a `[\d,]+` capture can reach is modelled;
  signs, exponents, `_`, `inf` and `nan` cannot occur in that capture. The
  non-ASCII digits Python's `\d` admits, which `float()` also reads, are
  outside the model's `\d`.
- Invoice.ParseInt: only `int()` on ASCII digit strings is modelled; the
  program's `int()` also reads the other Unicode decimal digits a `\d+`
  group can capture, which the model's `\d` does not match. The
  4300-digit limit is the CPython default; a Python without the limit, or
  one configured with another, reads longer groups where the model fails.
- Publish.ToPoint: the InfluxDB client, line-protocol serialisation and the
  write (lines 158-176) are not modelled. The point is a measurement, a map
  of fields and a timestamp string.
- Configuration loading (lines 16-45), the Nextcloud upload (lines 127-130),
  logging, and the `__main__` driver (lines 179-194) are left out.
