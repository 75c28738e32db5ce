# Review notifier: a Dafny model of the polling loop

The program is a Telegram bot that long-polls the dvmn.org review API and
sends one chat message for every graded attempt of a student's work. This
project models its core, `main.py`:

- `ReviewApi` (`review_api.dfy`): how `get_long_polling_review` shapes the
  GET (endpoint, `timestamp` parameter, `Authorization: Token <token>` header,
  5-second timeout) and the shape of the decoded JSON body, with every
  key optional because the program reads them with `[]` and a missing one
  raises `KeyError`.
- `Notifier` (`notifier.dfy`): `send_message_using_bot`: reading the three
  keys of each attempt, joining the lesson path onto `https://dvmn.org`,
  choosing the negative or the approval text, and the `for` loop that sends
  one text per attempt until a record lacks a key or a send raises.
  `Dispatch` is the specification of that loop; `SendMessages` is the loop.
- `PollingLoop` (`polling_loop.dfy`): one pass of the `while True` body as a
  state machine (`Next`) over the cursor `timestamp`, the counter
  `failed_connections` and whether the loop has ended; `Final`/`Trace`, its
  runs over a sequence of outcomes; and the class `Poller`, whose fields are
  the variables of `main` and whose methods `Step` and `Run` update them in
  place and are proved against `Next`, `Final` and `Trace`.
- `Wrappers` (`wrappers.dfy`): the `Option` type.

A pass meets one `Outcome`: a read timeout, a connection error, any other
exception of the request (an HTTP error status, undecodable JSON), or a
decoded body together with the index of the first send the bot transport
rejects, if any. An exception the loop does not catch ends `main` after
logging "the bot crashed"; the model marks the state halted, and every later
pass is `Quiet` (no request, nothing sent).

Two behaviours of the code are easy to misread:

- `failed_connections` is never reset. It counts every connection error since
  start, so the pause comes after every fifth connection error overall, not
  after five in a row (`CounterCountsAllConnectionErrors`,
  `SleepsAreFifthOfConnectionErrors`, `FifthConnectionErrorScenario`).
- `send_message_using_bot` runs on every response, not only on "found". A
  response whose status is not "found" reads `timestamp_to_request`; if that
  key is missing the loop ends (`NegativeNotFoundScenario`). A response
  without `new_attempts` ends the loop after the cursor has moved
  (`TimeoutWithoutAttemptsScenario`).

## Model

| member | source | states |
|---|---|---|
| ReviewApi.AuthToken | main.py:26-28 | a header value it accepts is exactly "Token " followed by the token it returns |
| ReviewApi.AuthHeader | main.py:26-28 | the header value is "Token " then the API token, and the token can be read back from it |
| ReviewApi.LongPollingRequest | main.py:24-29 | the request goes to the long-polling endpoint with a 5-second timeout, one `timestamp` parameter equal to the cursor and one `Authorization` header carrying the token |
| ReviewApi.NewCursor | main.py:81-84 | a cursor is read exactly when `status` is present and so is the key its status reads: `last_attempt_timestamp` for "found", `timestamp_to_request` for any other status |
| Notifier.Decode | main.py:37-39 | an attempt is read exactly when all three keys are present, and it is the attempt the record holds |
| Notifier.DecodeEncode | main.py:37-39 | reading a complete record gives back the attempt it was made from |
| Notifier.StripLeadingRemovesPrefix | main.py:41 | urljoin reads the lesson path without a prefix of controls and spaces, and without any more than that prefix |
| Notifier.RemoveUnsafeRemovesAll | main.py:41 | tabs, carriage returns and line feeds are all deleted from the lesson path, and a path without them is unchanged |
| Notifier.CleanIdempotent | main.py:41 | cleaning a lesson path a second time changes nothing |
| Notifier.CollapseSlashesCollapses | main.py:41 | a relative path loses only slashes, keeping its other characters in order; it keeps no two slashes in a row, keeps its first and last character, and is unchanged without a double slash |
| Notifier.AuthorityEnd | main.py:41 | the authority of a network-path reference ends at the first slash after "//", or at the end |
| Notifier.AuthorityEndIsFirstSlash | main.py:41 | no slash lies inside the authority |
| Notifier.DropEmptyParamsIdempotent | main.py:41 | an empty parameter list (the first `;` of the last segment ending the path) is dropped at most once, leaving a path without one |
| Notifier.LessonUrl | main.py:41 | the absolute URL of the cleaned path, with an empty parameter list at its end dropped: the origin when nothing is left, "https:" + authority + path for "//host/path", the origin's host and the path for an empty authority, origin + path for "/path", origin + "/" + the path with runs of slashes shortened for a relative path |
| Notifier.LessonUrlOfClean | main.py:41 | a lesson path and its cleaned form give the same URL |
| Notifier.LessonUrlInjective | main.py:41 | two lesson paths whose cleaned forms are "/path" paths and that give the same absolute URL have the same cleaned form up to an empty parameter list |
| Notifier.CleanOfPlain | main.py:41 | a path without leading controls or spaces and without tabs or line breaks is read as it is |
| Notifier.AbsolutePathExample | main.py:41 | "/x" gives "https://dvmn.org/x" |
| Notifier.EmptyAuthorityExamples | main.py:41 | "//" gives the origin and "///p" gives "https://dvmn.org/p" |
| Notifier.NetworkPathExample | main.py:41 | "//h/p" gives "https://h/p" |
| Notifier.RelativePathExample | main.py:41 | "a//b" gives "https://dvmn.org/a/b" |
| Notifier.TrailingSlashExample | main.py:41 | "ab//" gives "https://dvmn.org/ab/" |
| Notifier.EmptyParamsOnlyExample | main.py:41 | ";" gives the origin |
| Notifier.EmptyParamsAbsoluteExample | main.py:41 | "/x;" gives "https://dvmn.org/x" |
| Notifier.EmptyParamsNetworkExample | main.py:41 | "//h/p;" gives "https://h/p" |
| Notifier.NonEmptyParamsExample | main.py:41 | "a;b;" keeps its parameters and gives "https://dvmn.org/a;b;" |
| Notifier.LeadingWhitespaceExamples | main.py:41 | " /x" and a tab before "/x" both give "https://dvmn.org/x" |
| Notifier.Format | main.py:42-53 | no contract of its own; its text is stated by `FormatChoosesTemplate`, `TemplatesDiffer` and `FormatMentionsLesson`, and its constants are the dedented lines of the two templates |
| Notifier.FormatMentionsLesson | main.py:41-54 | every text sent contains the lesson title and the absolute lesson URL |
| Notifier.TemplatesDiffer | main.py:42-53 | the negative and the approval texts differ for every title and URL |
| Notifier.FormatChoosesTemplate | main.py:42-53 | the negative text is used if and only if the review is negative, the approval text if and only if it is not |
| Notifier.DispatchFrom | main.py:36-54 | the loop never delivers more attempts than remain in the list |
| Notifier.DispatchFromDelivers | main.py:36-54 | the delivered attempts are those of the list in order up to the first one lacking a key or whose send raises; the loop is cut short exactly when such an attempt exists, and that attempt is the one it stops at |
| Notifier.Dispatch | main.py:36-54 | without `new_attempts` the call raises before sending anything; with it, the loop is cut short exactly when it delivers fewer attempts than the list holds |
| Notifier.DispatchSendsEveryAttempt | main.py:36-54 | with complete records and no failing send, every attempt is delivered, in list order, and the loop does not raise |
| Notifier.SendMessages | main.py:34-54 | the texts sent are the texts of the attempts `Dispatch` delivers, one each and in order, and the method reports an exception exactly when `Dispatch` is cut short |
| PollingLoop.Next | main.py:74-93 | one pass: the request carries the current cursor and token; the loop ends exactly on a fatal outcome and then logs one crash; the counter rises by one exactly on a connection error; it sleeps exactly when that raises the counter to a multiple of 5; the cursor moves only on a response, to its new cursor; an ended loop does nothing |
| PollingLoop.Fatal | main.py:86-93 | read timeouts and connection errors are caught; any other request exception is fatal, and so is a response without `new_attempts` |
| PollingLoop.Final | main.py:73-93 | an ended loop stays as it is, and the counter never decreases |
| PollingLoop.Trace | main.py:73-93 | a run gives one output per outcome |
| PollingLoop.ReadTimeoutIsQuiet | main.py:86-87 | a read timeout changes no state and sends, sleeps and logs nothing |
| PollingLoop.ConnectionErrorBacksOff | main.py:88-91 | a connection error adds one to the counter, keeps the cursor, sends nothing, and sleeps exactly when the new count is a multiple of 5 |
| PollingLoop.OtherErrorHalts | main.py:92-93 | any other exception of the request ends the loop with one crash log and nothing sent |
| PollingLoop.ResponseMovesCursor | main.py:81-85 | a response moves the cursor to `last_attempt_timestamp` for "found" and to `timestamp_to_request` otherwise, leaves the counter, sends the texts of the delivered attempts whatever the status, and ends the loop exactly when sending is cut short |
| PollingLoop.MissingCursorHalts | main.py:81-84 | a response lacking `status` or the cursor key its status reads ends the loop with the cursor unmoved and nothing sent |
| PollingLoop.EveryAttemptNotified | main.py:81-85 | with complete records and no failing send, one text per attempt is sent, in order, and the loop goes on |
| PollingLoop.HaltedStaysQuiet | main.py:92-93 | after the loop has ended nothing changes and every further pass is quiet |
| PollingLoop.HaltsExactlyOnFatal | main.py:71-93 | a run has ended if and only if one of its outcomes raised an exception the loop does not catch |
| PollingLoop.CursorIsLastSuccess | main.py:69-85 | while the loop runs, the cursor is that of the most recent successful response, or the initial one if there was none |
| PollingLoop.RequestCarriesCursor | main.py:69-80 | the first request carries `timestamp` None and every later one the cursor of the most recent successful response |
| PollingLoop.CounterCountsAllConnectionErrors | main.py:70-91 | on a run without fatal outcomes the counter is the number of all connection errors met, since success never resets it |
| PollingLoop.SleepsFollowCounter | main.py:88-91 | the number of sleeps in a run is the number of multiples of 5 the counter passes |
| PollingLoop.SleepsAreFifthOfConnectionErrors | main.py:70-91 | from the start, a run without fatal outcomes sleeps (connection errors / 5) times |
| PollingLoop.HaltedPersists | main.py:92-93 | once the loop has ended, it has ended on every longer prefix of the run |
| PollingLoop.AtMostOneCrash | main.py:92-93 | the crash is logged at most once per run |
| PollingLoop.FoundApprovedScenario | main.py:81-85 | a "found" response with one approved attempt of "T1" at "/x" sends one approval text naming "T1" and `https://dvmn.org/x`, and the cursor becomes 100 |
| PollingLoop.NegativeNotFoundScenario | main.py:81-84 | a negative review under a non-"found" status without `timestamp_to_request` ends the loop with nothing sent |
| PollingLoop.NegativeFoundScenario | main.py:81-85 | a negative review under "found" sends one text from the negative template, not the approval one, and the cursor becomes 200 |
| PollingLoop.TimeoutWithoutAttemptsScenario | main.py:84-85 | a "timeout" response without `new_attempts` moves the cursor to 150, sends nothing and ends the loop |
| PollingLoop.FifthConnectionErrorScenario | main.py:81-91 | the fifth connection error sleeps, and a following response moves the cursor but keeps the counter at 5 without sleeping |
| PollingLoop.Poller.constructor | main.py:69-72 | the loop starts with cursor None, counter 0, and the start logged once |
| PollingLoop.Poller.Step | main.py:74-93 | the fields after one pass and the pass's output are those `Next` gives, and the crash is appended to the log exactly when the pass crashes |
| PollingLoop.Poller.Run | main.py:73-93 | the outputs of a run are `Trace` and the fields at its end are `Final` of the outcomes met |

## Left out

- `TelegramLogsHandler` and the logging set-up: the log is a field of `LogEvent`s; a failure of the log transport itself is not modelled.
- The network, `requests.get`, `raise_for_status`, JSON decoding and `telegram.Bot.send_message` are not modelled: their results reach the loop as an `Outcome`, and a failing send as the index `sendFailsAt`.
- `load_dotenv` and the environment variables: the API token is a parameter; the chat id and the bot tokens play no part in what is proved.
- `time.sleep(60)`: a pass reports a `slept` flag instead of waiting.
- The exception hierarchy of `requests` (for instance `ConnectTimeout` being both a connection error and a timeout): the three outcomes are disjoint.
- Notifier.LessonUrl: follows `urllib.parse.urljoin` of Python 3.12 except for a reference that has a scheme (a colon before the first slash), a query (`?`), a fragment (`#`), a `.` or `..` path segment, a host with `[` or `]` (where `urljoin` may raise `ValueError`, which would end the loop), or a non-ASCII host; for those the URL it gives is not the one `urljoin` gives.
- Cursor values: `last_attempt_timestamp` and `timestamp_to_request` are modelled as JSON null, booleans, numbers and strings, with numbers as exact reals rather than binary floats; arrays and objects are not modelled. The loop only passes the cursor on, so no property depends on this.
- The `timestamp` parameter is the dictionary handed to `requests.get`; how `requests` encodes it in the query string (dropping a None value) is not modelled.
- Notifier.Format: reproduces `dedent` only for a title and URL without line breaks; a line break inside them would change the indentation `dedent` removes.
- Notifier.Decode: `is_negative` is a boolean; Python's truthiness of other JSON values, and non-string titles or URLs, are not modelled.
- PollingLoop.Poller.Run: runs over a finite sequence of outcomes in place of `while True`; past a crash each pass is quiet where the program has already returned.
