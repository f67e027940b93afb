# Queue drain of the message laboratory, modelled in Dafny

The application in `ima/app.py` receives free-text messages over HTTP and
publishes them to a durable RabbitMQ queue. Separately, it drains that queue
into the MySQL table `tabela_mensagens`.

The core modelled here is the drain `processar_fila`:

- A global flag `processando_fila` is meant to guard against a second drain running at
  the same time.
- The drain reads the queue depth once, then issues at most that many
  `basic_get` calls: exactly that many unless one of them raises, which ends
  the drain, and none when the guard refuses, no channel opens or the
  declare raises.
- Each message body is split on `", "` and then on `": "` to get four fields.
- `salvar_mensagem_no_banco` converts the date from `DD/MM/YYYY` to
  `YYYY-MM-DD` and inserts a row.
- After each message the drain sends a `basic_nack`, either requeueing the
  message or discarding it.

Around the drain, the model also covers the routes that send a message
(`enviar_mensagem`) and report the queue depth (`obter_contagem_fila` and
`verificar_contagem_fila`).

The modules:

- `Text`: Python's `str.split` and `str.find` for a non-empty separator, and
  `str.join`. Its lemmas cover split/join round trips and how split behaves on
  concatenations.
- `Message`: the positional field extraction at lines 146-150. `Extract`
  returns `None` exactly where the source raises `IndexError`.
- `Dates`: `datetime.strptime(data, '%d/%m/%Y')` follows CPython's field
  patterns:
  - the day may be one or two digits, or a space followed by one digit;
  - the month may be one or two digits;
  - the year must be exactly four digits;
  - trailing text is refused;
  - the date must exist on the calendar, and year 0 is refused.

  `strftime('%Y-%m-%d')` is modelled with the same checks.
- `Consumer`: the outside world is an `Environment` input:
  - whether a channel opens;
  - whether the passive declare answers, and the depth it reports;
  - what each `basic_get` returns;
  - whether MySQL is reachable on each iteration.

  What a drain does is recorded in an `Effects` value, which holds the broker
  calls issued and the rows inserted. `Drain` is the specification function of
  one `processar_fila` call.
- `App`: the class `Service` holds:
  - the flag, which has three values because the global is never assigned
    before its first read;
  - `mensagens_enviadas`;
  - the broker call log;
  - the table.

  `Service.ProcessQueue` is proved equal to `Drain`. Its while loop is
  `Service.ConsumeMessages`, which runs `Service.ConsumeOne` per iteration;
  that in turn runs `Service.HandleDelivery` for the `try` block. `Service.SaveMessage` and `Service.SendMessage` update the state
  step by step, as the source does.

The model follows the code. In two places the code does not do what a
store-then-acknowledge consumer would do, nor what its own comments at
ima/app.py:157 and :161 say (that the message is requeued):

- **No ack is ever sent.** `salvar_mensagem_no_banco` has no `return`
  statement, so it returns `None`. Every message whose fields extract is
  therefore nacked with `requeue=False` and discarded, even when its row was
  inserted. The comment calls this a requeue, but the code does not requeue.
- **A date that does not convert discards the message.** `strptime` raises
  inside `salvar_mensagem_no_banco`, which catches the error itself. The
  message is then nacked with `requeue=False`, not requeued as a parse error.
  Only a failure while decoding or splitting leads to `requeue=True`.

The parser is also looser than the four-segment
`Data: …, Hora: …, Uuid: …, Nome: …` format the producers send:

- **Extra segments are accepted.** A body with more than four `", "`
  segments extracts from its first four, and the labels are never checked
  (`ExtractIgnoresExtraParts`, `ExtractRender`).

## Model

| member | source | states |
|---|---|---|
| `Text.Split` | ima/app.py:146 | `str.split` yields at least one part, and the first part is a prefix of the input |
| `Text.SplitWithout` | ima/app.py:146 | a string without the separator splits into itself alone |
| `Text.SplitAtFirst` | ima/app.py:146 | the first occurrence of the separator ends the first part, and the rest is split on its own |
| `Text.JoinSplit` | ima/app.py:146 | joining the parts with the separator gives back the original string |
| `Text.SplitPartsFree` | ima/app.py:146 | no part holds the separator |
| `Text.SplitHasSecondPart` | ima/app.py:147-150 | a second part exists (`[1]` does not raise) exactly when the separator occurs |
| `Text.SplitAppend` | ima/app.py:146 | for `", "`-like separators, splitting `a + sep + b` gives the parts of `a` followed by the parts of `b` |
| `Text.SplitJoin` | ima/app.py:146 | splitting a join of separator-free parts gives the parts back |
| `Text.Find` | ima/app.py:147-150 | the first occurrence of the separator, or none exactly when it does not occur |
| `Message.Value` | ima/app.py:147-150 | `segment.split(': ')[1]` exists exactly when the segment holds `": "` |
| `Message.ValueIsTextAfterLabel` | ima/app.py:147-150 | the value is the text between the first and the second `": "` (or the end), found by `find` |
| `Message.ExtractSucceedsIff` | ima/app.py:146-150 | extraction succeeds exactly when there are at least four segments and each of the first four holds `": "`; then the fields are the values of segments 0 to 3 in order |
| `Message.Extract` | ima/app.py:146-150 | the four-field extraction, `None` where an index raises; its contract is `ExtractSucceedsIff` (succeeds exactly with four `": "`-holding parts, fields as found by `find`) and `ExtractRender` (inverts rendering) |
| `Message.ExtractIgnoresExtraParts` | ima/app.py:146-150 | segments after the fourth do not change the result |
| `Message.PartRoundTrip` | ima/app.py:147-150 | the value of `label: value` is `value` when neither holds a separator |
| `Message.ExtractRender` | ima/app.py:146-150 | rendering four fields with any four plain labels and extracting gives the fields back |
| `Message.ExtractWireFormat` | ima/app.py:146-150 | a body in the producers' `Data: …, Hora: …, Uuid: …, Nome: …` format with plain values extracts to those values |
| `Message.ExtractWireExample` | ima/app.py:146-150 | the producers' example `Data: 05/03/2024, Hora: 14:30:00, Uuid: abc-123, Nome: Alice` extracts to its four values |
| `Message.ThreePartsDoNotExtract` | ima/app.py:146-150 | a body of three segments does not extract (`partes_mensagem[3]` raises) |
| `Message.ExtractMissingPartExample` | ima/app.py:146-150 | the example body without its `Nome` segment does not extract |
| `Dates.DaysInMonth` | ima/app.py:196 | every month has 28 to 31 days |
| `Dates.Pad` | ima/app.py:196 | `strftime` zero-padding gives exactly `width` digits |
| `Dates.PadValue` | ima/app.py:196 | the padded digits read back as the number |
| `Dates.PadDigits` | ima/app.py:196 | padding the value of a digit string to its length gives the string back |
| `Dates.DayField` | ima/app.py:196 | an accepted `%d` field is a day from 1 to 31 |
| `Dates.MonthField` | ima/app.py:196 | an accepted `%m` field is a month from 1 to 12 |
| `Dates.YearField` | ima/app.py:196 | an accepted `%Y` field is four digits, read as 0 to 9999 |
| `Dates.ParseDayMonthYear` | ima/app.py:196 | `strptime(data, '%d/%m/%Y')` returns only dates on the calendar (year 1 to 9999, day within its month) |
| `Dates.IsoRoundTrip` | ima/app.py:196 | reading back a date formatted as `%Y-%m-%d` gives the same date |
| `Dates.FormatIso` | ima/app.py:196 | `strftime('%Y-%m-%d')`; its contract is `IsoRoundTrip` (read back, it gives the same date) and `FormatIsoFrom` (spelled by the digit strings of its fields) |
| `Dates.ReformatMeaning` | ima/app.py:196 | the conversion fails exactly when `strptime` raises; otherwise its ISO text denotes the same calendar day |
| `Dates.Reformat` | ima/app.py:196 | the conversion of the date column; its contract is `ReformatMeaning` (fails exactly when `strptime` raises, keeps the day) and `ReformatCanonical` |
| `Dates.ReformatCanonical` | ima/app.py:196 | for `DD/MM/YYYY` the conversion succeeds exactly when the date exists, and gives `YYYY-MM-DD` from the same digits |
| `Dates.ReformatSpelled` | ima/app.py:196 | a `DD/MM/YYYY` text converts to `YYYY-MM-DD` spelled with the same three digit strings exactly when the date they name exists |
| `Dates.FormatIsoFrom` | ima/app.py:196 | a valid date formats as the digit strings that read as its year, month and day |
| `Dates.ReformatFields` | ima/app.py:196 | accepted fields that form a valid date convert to that date in ISO form |
| `Dates.ReformatExample` | ima/app.py:196 | `05/03/2024` becomes `2024-03-05` |
| `Dates.ReformatLeapDayExample` | ima/app.py:196 | `29/02/2024` becomes `2024-02-29` |
| `Dates.ReformatCommonYearExample` | ima/app.py:196 | `29/02/2023` does not convert |
| `Dates.ReformatShortFieldsExample` | ima/app.py:196 | `5/3/2024` is accepted and becomes `2024-03-05` |
| `Dates.ReformatSpacedDayExample` | ima/app.py:196 | ` 5/03/2024` is accepted and becomes `2024-03-05` |
| `Consumer.HandleCalls` | ima/app.py:140-162 | one delivery causes no call, `Nack(true)` or `Nack(false)`, never a get or an ack, and at most one row, which comes with `Nack(false)`; an empty get causes no call and no row |
| `Consumer.Handle` | ima/app.py:140-162 | the handling of one delivery; its contract is `HandleCalls`, `ExtractionFailureRequeues`, `ExtractedMessageDiscarded` and `HandleProperties` |
| `Consumer.SaveRows` | ima/app.py:193-211 | the rows `salvar_mensagem_no_banco` inserts; its contract is `ExtractedMessageDiscarded` (one row exactly when the date converts and MySQL is up, with the same day in ISO form) |
| `Consumer.SaveResult` | ima/app.py:153 | the value `salvar_mensagem_no_banco` returns, always false because it has no `return`; its consequence is `HandleCalls` and `DrainNeverAcks` (no ack is ever sent) |
| `Consumer.ExtractionFailureRequeues` | ima/app.py:142-162 | a body that fails to decode as UTF-8 or to extract is nacked with `requeue=True`, and nothing is inserted |
| `Consumer.ExtractedMessageDiscarded` | ima/app.py:153-158 | a message whose fields extract is always nacked with `requeue=False` and never acked; it inserts one row exactly when its date converts and MySQL is up, and that row holds the same day in ISO form with the other fields unchanged |
| `Consumer.HandleProperties` | ima/app.py:140-162 | the per-message handling issues no get or ack, inserts only ISO-dated rows, and inserts no more rows than it discards |
| `Consumer.LoopAppends` | ima/app.py:136-164 | the loop only appends to the call log and to the table |
| `Consumer.Loop` | ima/app.py:136-164 | the while loop over the depth snapshot; its contract is `LoopAppends`, `LoopNeverAcks`, `LoopGets`, `LoopRowsValid` and `LoopRowsBound` |
| `Consumer.LoopNeverAcks` | ima/app.py:136-164 | the loop sends no ack when its handler sends none |
| `Consumer.LoopGets` | ima/app.py:136-164 | the loop issues at most `n` gets, and exactly `n` when no get raises, including gets that find the queue empty |
| `Consumer.LoopRowsValid` | ima/app.py:136-164 | every row the loop inserts holds a valid ISO date |
| `Consumer.LoopRowsBound` | ima/app.py:136-164 | the loop inserts no more rows than it sends `Nack(false)` |
| `Consumer.GuardShortCircuit` | ima/app.py:115-121 | with the flag unset, or set and the call not forced, the drain makes no broker call and inserts nothing |
| `Consumer.GuardPasses` | ima/app.py:118 | the guard; its contract is `GuardShortCircuit` (a refused or raising guard changes nothing) |
| `Consumer.DrainWith` | ima/app.py:114-171 | one call of `processar_fila` with any per-message handler; its contract is `DrainWithNeverAcks`, `DrainWithGets` and `DrainWithRows` |
| `Consumer.Drain` | ima/app.py:114-171 | one call of `processar_fila`; its contract is `DrainNeverAcks`, `DrainGets`, `DrainRows` and `DrainKeepsInvariant` |
| `Consumer.DrainWithNeverAcks` | ima/app.py:114-171 | with any per-message handler that sends no get and no ack, a drain only appends to the call log and sends no ack |
| `Consumer.DrainNeverAcks` | ima/app.py:114-171 | a drain never sends `basic_ack` and only appends to the call log |
| `Consumer.DrainWithGets` | ima/app.py:125-164 | with any handler that sends no get, a drain issues at most the depth snapshot of gets, exactly that many when the guard passes, the declare answers and no get raises, and none when it stops before the loop |
| `Consumer.DrainGets` | ima/app.py:125-164 | a drain issues exactly the depth snapshot of gets when the guard passes, the channel opens, the declare answers and no get raises; never more; and none when the guard stops it or no channel opens |
| `Consumer.DrainWithRows` | ima/app.py:114-171 | with any handler whose rows are ISO-dated and come with a discard, a drain only appends ISO-dated rows, no more than its `Nack(false)` calls |
| `Consumer.DrainRows` | ima/app.py:114-171 | a drain only appends rows, each with a valid ISO date, and no more of them than the messages it discarded |
| `Consumer.DrainKeepsInvariant` | ima/app.py:114-171 | across any number of drains, the log holds no ack and the table holds only ISO-dated rows |
| `App.RecordedOnlyAfterPublish` | ima/app.py:60-85 | a message is appended to `mensagens_enviadas` only after connect, declare, publish and close all returned, and the route answers 200 exactly then |
| `App.SendCalls` | ima/app.py:60-85 | the broker calls of `enviar_mensagem` up to the first raising step; its contract is `PublishIff` and `MissingMessageFails` |
| `App.Recorded` | ima/app.py:60-85 | what `enviar_mensagem` appends to `mensagens_enviadas`; its contract is `RecordedOnlyAfterPublish` |
| `App.SendStatus` | ima/app.py:60-85 | the status of `enviar_mensagem`; its contract is `RecordedOnlyAfterPublish` (200 exactly when the message is recorded) |
| `App.PublishIff` | ima/app.py:66-79 | publish is reached exactly when connect and declare returned, and it returned exactly when close follows; if only close raises, the message is queued but not recorded, and the route answers 500 |
| `App.MissingMessageFails` | ima/app.py:62-63 | a request without `mensagem` makes no broker call, records nothing and answers 500 |
| `App.QueueCount` | ima/app.py:88-101 | the count is the sentinel -1 or more |
| `App.CountStatus` | ima/app.py:107-111 | the status of `verificar_contagem_fila`; its contract is `CountRoute` |
| `App.CountRoute` | ima/app.py:104-111 | the count route answers 200 with the depth exactly when a channel opens and the declare answers, and 500 with the sentinel -1 otherwise |
| `App.Service.constructor` | ima/app.py:56 | at load the flag is unassigned, nothing is sent or stored, and the invariant holds |
| `App.Service.SaveMessage` | ima/app.py:193-211 | inserts the row with the converted date exactly when the date converts and MySQL is up; always returns a false value |
| `App.Service.ProcessQueue` | ima/app.py:114-171 | the new call log and table are those of `Drain` applied to the old flag and state; the flag always ends cleared, even when it started unassigned; the no-ack and ISO-row invariant is kept |
| `App.Service.ConsumeMessages` | ima/app.py:136-164 | the while loop leaves the call log and the table as `Loop` gives them for the depth snapshot |
| `App.Service.ConsumeOne` | ima/app.py:138-162 | one iteration issues a get; it raises exactly when the get raises, and otherwise appends what the handling of the delivery gives |
| `App.Service.HandleDelivery` | ima/app.py:140-162 | the `try` block for one delivery appends to the call log and the table exactly what `Handle` gives for it |
| `App.Service.SendMessage` | ima/app.py:60-85 | logs the calls made up to the first raising step, appends the message only after all of them returned, and answers 200 or 500 to match |

## Left out

- HTTP plumbing is not modelled. This covers Flask routing, JSON request parsing, CORS, the `OPTIONS` handler, `testar_conexoes` and `processar_fila_route`. In the model, `iniciar_processamento` is a boolean rather than any truthy JSON value.
- Configuration through environment variables and logging are not modelled. They do not change control flow.
- The internals of pika and MySQL are not modelled. Each outcome that matters becomes an input:
  - a channel opening or not;
  - the passive declare answering or raising, and the depth it reports;
  - each `basic_get` returning a message, a message that is not UTF-8, nothing, or raising;
  - MySQL being reachable or not on each iteration.
- Some failures inside a drain are left out:
  - `basic_nack` raising;
  - the insert or commit raising once connected (it is swallowed like an unreachable database, and no row is stored);
  - the queue contents changing under other consumers.
- Where requeued messages go next is not modelled. The broker is outside the model, so a drain sees deliveries as an input sequence.
- The drain leaves its channel open. Connections are not modelled.
- The guard is a read followed by a write on a global, with no lock. Two concurrent requests can both pass it. The model runs one request at a time, so it captures only the sequential behaviour, including that a refused call also clears the flag through `finally`.
- `App.QueueCount` does not log the connect and the passive declare that `obter_contagem_fila` issues, and it does not model the unclosed channel. Only the value the route returns is modelled.
- `App.Service.SendMessage` takes the message as a string. The JSON value `mensagem` may be any JSON type, and a body that is not JSON fails like a missing `mensagem`.
- `Dates.DayField`: the second digit of a day from 10 to 29 must be ASCII; CPython's `[1-2]\d` also accepts other Unicode decimal digits there, which `int()` reads by their value.
- `Dates.YearField`: the four digits must be ASCII; CPython's `\d\d\d\d` also accepts other Unicode decimal digits, which `int()` reads by their value.
- `Dates.Pad`: `%Y` is written with four digits. For years below 1000, the platform's `strftime` may write fewer.
