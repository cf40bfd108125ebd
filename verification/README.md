# text-flow-app: a Dafny model of the SMS console's core

text-flow-app is a small web console for sending and receiving SMS messages
through one operator number. A Next.js page talks to four JSON route handlers.
The handlers talk to a carrier client (Twilio) and to a `messages` table
(Supabase). Apart from that plumbing, the console has a small core of logic, and
this project models it and proves properties of it:

- **Phone-number handling on the page** (`app/page.tsx`), in module `HomePage`:
  - the storage normaliser `formatPhoneNumberForStorage`;
  - the display formatter `formatPhoneNumber`;
  - the guard of "start a new conversation".

  They rest on a model of JavaScript's `trim` and of the regex class `\d` in
  module `JsString`.
- **The conversation list** (`GET /api/conversations`), in module `ConversationsRoute`:
  - it reads the log newest first;
  - it finds each message's counterparty;
  - it keeps the first message seen per counterparty in an insertion-ordered map;
  - it sorts the summaries newest first.

  The handler is an imperative method, `Get`, with a loop over the log. It is
  proved to return `ConversationList`, a specification function. The lemmas
  about `ConversationList` say what the list means: one entry per counterparty,
  each holding that counterparty's latest message, newest first.
- **A thread** (`GET /api/messages`), in module `MessagesRoute`:
  - keep the rows whose number matches exactly;
  - order them newest first;
  - cut at `limit` (default 50).
- **Sending** (`POST /api/messages/send`, module `SendRoute`, and
  `POST /api/test-send`, module `TestSendRoute`): validation, one carrier call,
  one insert, and the choice of response. The carrier result and the insert
  outcome are parameters. The handlers return the carrier call they issued and
  the row they inserted as values.

Module `Sorting` models both the store's `ORDER BY ... DESC` and
`Array.prototype.sort` with a `b - a` comparator. It does so with one stable
descending insertion sort, proved sorted, a permutation, and stable.

Records follow `lib/supabase/types.ts`, with `created_at` as an integer
timestamp. A JavaScript string is modelled as a sequence of Unicode scalar values (`seq<char>`).
A "falsy" string parameter is one that is absent or `null` (`None`) or empty.

Where the code and its comments disagree, the model follows the code:

- `fetchMessages` in `app/page.tsx` says the messages arrive oldest first.
  The route orders them newest first (`ascending: false`), and so does the model.
- The thread filter compares the requested number with `from_number` and
  `to_number` exactly. There is no matching of `+1`/national variants.
  `+18327905001` and `8327905001` are different threads, and different
  conversations (`ConversationsRoute.RawNumbersNotMerged`).
- `messages/send` stores the raw `to`. `test-send` stores the normalised number.

## Model

| member | source | states |
|---|---|---|
| `JsString.Trim` | app/page.tsx:128 | `trim` never lengthens a string, and its result has no whitespace at either end |
| `JsString.TrimStartDropsWhitespace` | app/page.tsx:128 | what is removed at the front is a prefix made only of whitespace |
| `JsString.TrimEndDropsWhitespace` | app/page.tsx:128 | what is removed at the back is a suffix made only of whitespace |
| `JsString.TrimTakesMiddle` | app/page.tsx:128 | the result is a contiguous middle of the input, with only whitespace before and after it |
| `JsString.TrimIgnoresPadding` | app/page.tsx:128 | whitespace added around a string does not change its `trim` |
| `JsString.TrimIdempotent` | app/page.tsx:128 | trimming twice is trimming once |
| `JsString.TrimOfTrimmed` | app/page.tsx:128 | a string without whitespace at either end is its own `trim` |
| `JsString.TrimEmptyIff` | app/page.tsx:138-139 | `trim` returns `""` exactly when the input is all whitespace (the `if (phone)` guard) |
| `JsString.DigitsOnlyIsDigits` | app/page.tsx:132 | `replace(/\D/g, '')` leaves only ASCII digits and never lengthens |
| `JsString.DigitsOnlyKeepsDigits` | app/page.tsx:132 | every digit is kept, as many times as it occurs |
| `JsString.DigitsOnlyOfDigits` | app/page.tsx:132 | a string of digits is left unchanged |
| `JsString.DigitsOnlyAppend` | app/page.tsx:132 | digit removal works piece by piece over a concatenation |
| `HomePage.FormatForStorage` | app/page.tsx:126-135 | the stored form always starts with `+` |
| `HomePage.FormatForStorageShape` | app/page.tsx:128-134 | a trimmed input starting with `+` is returned exactly, inner spaces and punctuation included; any other input becomes `+1` followed by digits only |
| `HomePage.FormatForStorageTrimmed` | app/page.tsx:128-134 | the stored form has no whitespace at either end |
| `HomePage.FormatForStorageIdempotent` | app/page.tsx:126-135 | normalising an already stored number returns it unchanged |
| `HomePage.FormatForStorageIgnoresPadding` | app/page.tsx:128 | whitespace around the entry does not change the stored form |
| `HomePage.NationalAndTrunkAgree` | app/page.tsx:131-132 | a national number `d`, entered as `d`, `1d` or `+1d`, is stored as `+1d` (the page's `8327905001` / `+18327905001` examples) |
| `HomePage.TrunkOneDropped` | app/page.tsx:131 | exactly one leading `1` is removed, even when the rest also starts with `1` |
| `HomePage.OneBehindPunctuationKept` | app/page.tsx:131-132 | the `1` is looked for before non-digits are removed, so behind a leading `(` or `-` it stays a digit of the number |
| `HomePage.FormatForStorageKeepsPlusNumber` | app/page.tsx:129-134 | `+1 (832) 790-5001` is stored with its spaces and punctuation; a blank entry becomes `+1` |
| `HomePage.FindRun` | app/page.tsx:150 | finds the leftmost position from which ten digits follow, or reports that there is none |
| `HomePage.FormatPhoneNumber` | app/page.tsx:148-151 | only the leftmost run of ten digits is rewritten as `(ddd) ddd-dddd`; the string is unchanged exactly when it has no such run |
| `HomePage.FormatPhoneNumberOfTenDigits` | app/page.tsx:150 | ten digits are displayed as `(ddd) ddd-dddd` |
| `HomePage.FormatPhoneNumberOfStoredNumber` | app/page.tsx:150 | for `+1` followed by ten digits, the grouped run starts at the country code |
| `HomePage.StoredNumberDisplayedAsWritten` | app/page.tsx:173 | a national number stored by the page is shown with the `1` inside the area code |
| `HomePage.StoredNumberDisplayedCorrected` | app/page.tsx:148-151 | with the corrected formatter, the same number is shown as `+1 (ddd) ddd-dddd` of its own digits |
| `HomePage.StartNewConversation` | app/page.tsx:137-146 | a blank or whitespace-only entry changes nothing; otherwise the stored form of the entry is selected, the entry is cleared and the form closed |
| `Sorting.Insert` | app/api/conversations/route.ts:41-45 | insertion adds exactly one element to the multiset, and the result starts with the new element or with the old first one |
| `Sorting.InsertSorted` | app/api/conversations/route.ts:41-45 | inserting into a newest-first sequence keeps it newest first |
| `Sorting.SortDesc` | app/api/conversations/route.ts:41-45 | the result is non-increasing in the key and a permutation of the input |
| `Sorting.InsertWithKey` | app/api/conversations/route.ts:41-45 | insertion puts the new element ahead of every element with the same key, the placement that keeps the sort stable |
| `Sorting.SortDescStable` | app/api/conversations/route.ts:41-45 | the sort is stable: elements with equal keys keep their input order |
| `Sorting.SortDescOfSorted` | app/api/conversations/route.ts:41-45 | sorting a sequence that is already newest first changes nothing |
| `Sorting.SortDescSameElements` | app/api/conversations/route.ts:10 | sorting neither adds nor loses an element |
| `ConversationsRoute.Counterparty` | app/api/conversations/route.ts:26-29 | the counterparty is the recipient when the operator sent the message and the sender otherwise, and equals the operator number only for a message from the operator to itself |
| `ConversationsRoute.CounterpartiesOfMessages` | app/api/conversations/route.ts:24-29 | the counterparties of a log are those of its messages, whatever their order |
| `ConversationsRoute.CounterpartyIn` | app/api/conversations/route.ts:24-29 | every message's counterparty is among the log's counterparties |
| `ConversationsRoute.SummariesOnePerCounterparty` | app/api/conversations/route.ts:21-38 | the grouping yields a summary for every counterparty and only for them, with no number twice and `unread_count` 0 |
| `ConversationsRoute.SummariesCount` | app/api/conversations/route.ts:31-38 | there are exactly as many summaries as distinct counterparties |
| `ConversationsRoute.FirstIndex` | app/api/conversations/route.ts:31 | locates a message of the log with the given counterparty |
| `ConversationsRoute.FirstIndexIsFirst` | app/api/conversations/route.ts:31 | no earlier message has that counterparty |
| `ConversationsRoute.SummariesFirstSeen` | app/api/conversations/route.ts:31-38 | each summary is built from the first message of its counterparty |
| `ConversationsRoute.SummaryPhoneIsCounterparty` | app/api/conversations/route.ts:32-33 | each summary is filed under a counterparty of the log |
| `ConversationsRoute.SummariesOrderedPair` | app/api/conversations/route.ts:21-38 | of two summaries, the earlier one's counterparty was seen first in the log |
| `ConversationsRoute.SummariesInFirstSeenOrder` | app/api/conversations/route.ts:21-38 | the map's insertion order is the order in which counterparties are first seen |
| `ConversationsRoute.SummariesPrefix` | app/api/conversations/route.ts:24-38 | older messages later in the log never change the summaries already built |
| `ConversationsRoute.SummariesIgnoresRepeat` | app/api/conversations/route.ts:31 | a later message for a counterparty already summarised changes nothing |
| `ConversationsRoute.SummariesNewestFirst` | app/api/conversations/route.ts:10-38 | on a newest-first log the summaries are newest first, and each holds the latest message of its counterparty |
| `ConversationsRoute.ConversationListIsFirstSeenOrder` | app/api/conversations/route.ts:41-45 | the final stable sort keeps the first-seen order |
| `ConversationsRoute.SameCounterparties` | app/api/conversations/route.ts:10 | ordering the table does not change its counterparties |
| `ConversationsRoute.ConversationListOnePerCounterparty` | app/api/conversations/route.ts:21-45 | the list has one conversation per distinct counterparty, none missing, no duplicates, and none unread |
| `ConversationsRoute.ConversationListCount` | app/api/conversations/route.ts:21-45 | the list is as long as the table has distinct counterparties |
| `ConversationsRoute.ConversationListLatest` | app/api/conversations/route.ts:10-38 | each conversation is the summary of one of its counterparty's messages, and no message for that number is more recent |
| `ConversationsRoute.ConversationListOfEmptyLog` | app/api/conversations/route.ts:24 | an empty log gives an empty list |
| `ConversationsRoute.CounterpartiesOfPair` | app/api/conversations/route.ts:26-29 | two messages have the counterparties of each |
| `ConversationsRoute.RawNumbersNotMerged` | app/api/conversations/route.ts:26-31 | `+18327905001` and `8327905001` are two conversations, because numbers are compared as raw strings |
| `ConversationsRoute.Values` | app/api/conversations/route.ts:41 | the map's values in insertion order, one per key |
| `ConversationsRoute.PhonesOfValues` | app/api/conversations/route.ts:32-33 | when every summary is filed under its own number, the summaries' numbers, in order, are the map's key order |
| `ConversationsRoute.ValuesAppend` | app/api/conversations/route.ts:31-38 | adding a new key appends its summary and leaves the others in place |
| `ConversationsRoute.FoldStep` | app/api/conversations/route.ts:24-38 | one pass of the handler's loop over its map and key order computes the summaries of one more message |
| `ConversationsRoute.Get` | app/api/conversations/route.ts:4-47 | with the query made through the server's store client: a store error gives 500 `Failed to fetch conversations`; otherwise the loop over the newest-first log and the sort return `ConversationList` of the table |
| `ConversationsRoute.GetAsWritten` | app/api/conversations/route.ts:2-7 | as written, the query goes through an unbound `supabaseAdmin`, so every request ends in the `catch`'s 500 `Internal server error` and no table's conversation list is ever returned |
| `MessagesRoute.EffectiveLimit` | app/api/messages/route.ts:8 | the limit is the parameter when given and 50 otherwise |
| `MessagesRoute.Matching` | app/api/messages/route.ts:16-18 | the filter keeps exactly the rows from or to the number, each as often as it occurs |
| `MessagesRoute.ThreadMatches` | app/api/messages/route.ts:16-18 | with a number, every returned row is from or to exactly that number; every returned row comes from the table |
| `MessagesRoute.ThreadUnfiltered` | app/api/messages/route.ts:16 | without a number (absent or empty) the newest rows of the whole table are returned |
| `MessagesRoute.ThreadLength` | app/api/messages/route.ts:8-14 | the result holds `limit` rows, or all candidates when there are fewer, and at most 50 by default |
| `MessagesRoute.ThreadNewestFirst` | app/api/messages/route.ts:13 | the result is newest first |
| `MessagesRoute.CutKeepsNewest` | app/api/messages/route.ts:13-14 | cutting a newest-first sequence keeps the newest: whatever is cut off is no newer than what is kept |
| `MessagesRoute.ThreadKeepsNewest` | app/api/messages/route.ts:10-18 | the limit applies after the filter: a matching row is left out only when the result is full, and no returned row is older |
| `MessagesRoute.Get` | app/api/messages/route.ts:20-30 | a store error gives 500 `Failed to fetch messages`; otherwise 200 with the thread |
| `SendRoute.SendErrorText` | app/api/messages/send/route.ts:21 | the carrier's error when it is non-empty, `Failed to send message` otherwise; never empty |
| `SendRoute.Post` | app/api/messages/send/route.ts:5-55 | missing or empty fields give 400 and nothing is sent; a failed send gives 500 with the error and nothing is stored; a successful send stores an outbound `sent` row from the operator to the raw `to` with the sid, and answers success with the sid whatever the insert reports |
| `TestSendRoute.FormatRecipient` | app/api/test-send/route.ts:23-27 | the inline normalisation computes exactly the page's storage form, which starts with `+` |
| `TestSendRoute.FirstInserted` | app/api/test-send/route.ts:79 | the first row the insert returned, when there is one |
| `TestSendRoute.Post` | app/api/test-send/route.ts:5-92 | an unparseable body gives 500 `Internal server error` with the exception's `message` and `stack`, and nothing is sent; missing or empty fields give 400 and nothing is sent; the text goes to the normalised number; a failed send gives 500 with the error and the carrier result, and nothing is stored; after a successful send the row for the normalised number is inserted, and the answer is success with the sid, plus a warning when the insert failed or the stored row when it did not |

## Left out

- Exceptions other than an unreadable request body are not modelled: in the model nothing else inside the handlers throws, so the `catch` branch of the messages `GET` handler (500 `Internal server error`) cannot be reached. The conversations `GET` handler is the exception: as written it always ends in its `catch`, because its store client is not bound (see Findings and `ConversationsRoute.GetAsWritten`); `ConversationsRoute.Get` models it with the client the other routes use. An unparseable body (`request.json()` throwing) is the `None` request of `SendRoute.Post` and the `Unparseable` request of `TestSendRoute.Post`, which carries the exception's `message` and `stack` as given values.
- JSON field types: `to` and `message` are strings or absent. A truthy non-string value, such as a number, is not modelled, so neither is the `to.trim()` exception it causes in test-send.
- `parseInt` of the `limit` parameter: the model takes the parsed value, a natural number, or no value for an absent or empty parameter. `NaN`, negative and partly numeric values are not modelled.
- The filter at app/api/messages/route.ts:17 is a PostgREST string. The model treats it as plain exact equality on both numbers. Numbers containing `,` or `.` that would change the filter are not modelled.
- The store's order among rows with equal `created_at` is not specified. The model breaks ties by table order, stably.
- Timestamps are integers. The ISO strings and `new Date(...).getTime()` are assumed to order like them.
- The carrier client (lib/twilio.ts) and the store client are foreign calls. Only the carrier's `{success, sid, error}` result and the insert's outcome are kept, as parameters. The operator number (an environment variable) is a parameter too. Logging is left out.
- `handleStartNewConversation` also calls `fetchMessages` and React state setters. The model keeps the three state fields it sets and leaves out the fetch.
- The rest of the repository is not part of this model: the page's polling, optimistic updates and rendering, `components/`, `app/test/page.tsx`, the inbound webhook, and the status and config routes.
- Strings are sequences of Unicode scalar values, not UTF-16 code units: a lone surrogate cannot be represented, and a character outside the Basic Multilingual Plane is one element rather than two, so lengths and indices of such strings differ from JavaScript's. No property here depends on it: `trim`, `\d` and the phone-number formats only look at ASCII and whitespace characters.

## Findings

| source | as written | input that shows it | evidently intended | confidence | as-written member | corrected member |
|---|---|---|---|---|---|---|
| app/page.tsx:150 | the header formats the selected (stored) number by grouping its first run of ten digits, which for a `+1` number starts at the country code | `+18327905001`, the stored form of `8327905001`, is shown as `+(183) 279-05001` | `+1 (832) 790-5001`: the national number grouped, after the country code | medium; not executed | `HomePage.StoredNumberDisplayedAsWritten` | `HomePage.StoredNumberDisplayedCorrected` |
| app/api/conversations/route.ts:7 | the handler queries through `supabaseAdmin`, which lib/supabase/server.ts does not export (it exports only `getSupabaseAdmin`, which every other route calls); the binding is `undefined`, `.from(...)` throws, and the `catch` at lines 48-54 answers | any `GET /api/conversations` request, for any table contents: the answer is 500 `Internal server error` | the query made through `getSupabaseAdmin()`, giving 200 with one conversation per counterparty | medium (a type-checked build may reject the import instead); not executed | `ConversationsRoute.GetAsWritten` | `ConversationsRoute.Get` |
