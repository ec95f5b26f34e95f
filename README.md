# Essay-writing service: verified model of its core logic

The service is a Flask web application. Clients order essays and chat with the admin.
The admin manages orders, answers chats and uploads files. Most of the application is routing and templates.
This project models the parts that carry real logic, and proves what they promise:

- **Pricing** (`Pricing.dfy`): the price of an order, from word count, academic level and deadline.
- **Records** (`Models.dfy`): the user role checks, the `Order` record with its default status
  "Pending", and the `Message` record.
- **Uploads** (`Uploads.dfy`): the check that accepts an uploaded file name by its extension.
- **Chat** (`Chat.dfy`): the Message table as a class holding a sequence. It covers
  - the three ways a message is added (chat widget, contact form, admin reply);
  - a client's view of its conversation;
  - the admin's view, grouped by sender, built by a loop.
- **Order administration** (`OrderAdmin.dfy`): the Order table as a class holding a map from id to
  order, with status update and deletion.
- `Wrappers.dfy` holds `Option`, `Result` and `Outcome`.

Modelling choices:

- **Time.** Time is whole seconds. The current time is a parameter (`now`) instead of a clock read.
- **Acting user.** The acting user's id is a parameter.
- **Money.** Prices are exact reals.
- **Form and JSON fields.** A field that may be absent is an `Option`. An absent field is an error
  path of the model, not a precondition.
- **Message ids.** The database assigns message ids in insertion order. The model states this as
  the invariant `Valid()`: the message at position i has id i + 1.
- **Sorting.** Reading the table "ordered by timestamp" is `Chat.SortByTime`, a stable insertion
  sort. The database may return rows with equal timestamps in any order. So the store's contracts say
  only what holds for every such order: each result is time-ordered and a permutation.
- **Key order.** The admin's grouping returns the dictionary's key order as an explicit sequence.
  Python dictionaries keep insertion order, so the loop lists each sender at its first message
  (`Chat.GroupBySender`). On the time-ordered table, this means the senders come in the order of the
  time of their earliest message (`Chat.MessageStore.GroupedChats`). The order of two senders whose
  earliest messages share a timestamp depends on the database, and the contract leaves it open.

Where the code's behaviour may surprise a reader, the model follows the code:

- **Urgency.** An order is urgent when the whole-day part of the time left is at most 1. That means
  less than two full days, and deadlines that have already passed count as urgent.
- **Level.** An unknown level string silently costs the same as "Undergrad".
- **Word count.** Negative word counts are not rejected, and their price is negative.
- **Empty text.** Only the chat widget rejects empty text. The contact form and the admin reply store
  an empty message. As for the text, they fail only when the field is missing, because the content
  column is NOT NULL. The admin reply also fails, before the text is looked at, when its user id is
  missing or not a number (`BadUserId`).
- **Grouping.** The admin view groups by sender. An admin reply is therefore filed under the admin's
  own id, not under the client it answers.
- **Status.** An order's status is free text. No transition between statuses is checked, and a
  status can be set back to an earlier one.
- **Roles.** `User` declares no role column, so a user loaded from the table has no role attribute and
  both role checks are false. The model keeps the role as an optional attribute to state what the
  checks do when one is present.

## Model

| member | source | states |
|---|---|---|
| Pricing.DaysLeft | app/models.py:124 | the whole-day part of deadline − now is its floor in days: d days ≤ difference < d + 1 days, also for past deadlines |
| Pricing.UrgencyMultiplier | app/models.py:124 | the urgency factor is 2.0 exactly when less than two full days are left (past deadlines included) and 1.0 exactly otherwise |
| Pricing.LevelMultiplier | app/models.py:125 | Undergrad 1.0, Masters 1.5, PhD 2.0, and 1.0 for every level outside the table |
| Pricing.CalculatePrice | app/models.py:122-126 | zero words cost 0; a non-negative word count never gives a negative price; a negative one gives a negative price |
| Pricing.PriceInFortieths | app/models.py:122-126 | integer reference: 40 × price = words × urgency factor (2 or 1) × level factor in halves (2, 3 or 4) |
| Pricing.UnknownLevelPricesAsUndergrad | app/models.py:125 | a level outside the table prices exactly as "Undergrad" |
| Pricing.UrgentPriceIsDouble | app/models.py:124-126 | for the same words and level, a deadline less than two days away costs exactly twice one at least two days away |
| Pricing.PriceMonotonicInWords | app/models.py:126 | for 0 ≤ fewer ≤ more words, the price for fewer is at most the price for more |
| Pricing.PriceExamples | app/models.py:122-126 | worked prices: 1000 PhD words cost 100.0 with two days left, 200.0 with 12 or 36 hours left; 500 Masters words over 10 days cost 37.5; an unknown level past its deadline costs as Undergrad, urgent |
| Models.IsAdmin | app/models.py:61-62 | `is_admin`: true when the user has a role attribute equal to "admin"; its properties are stated by Models.RoleChecks |
| Models.IsWriter | app/models.py:64-65 | `is_writer`: true when the user has a role attribute equal to "writer"; its properties are stated by Models.RoleChecks |
| Models.RoleChecks | app/models.py:61-65 | is_admin holds iff a role is present and equals "admin", is_writer likewise for "writer", and never both |
| Models.NoRoleNoPrivilege | app/models.py:52-65 | a user without a role attribute (every user built from the declared columns) is neither admin nor writer |
| Models.NewOrder | app/models.py:110-120 | a new order's status is the supplied one, or "Pending" when none is supplied; every other field is the given value and the creation time is now |
| Models.NewMessage | app/models.py:75-81 | a new Message row has the given id, sender, receiver and text; `is_admin` is false unless supplied, and the timestamp is the creation time |
| Uploads.LowerChar | app/routes.py:52 | lowering maps each of 'A'..'Z' to the same letter in 'a'..'z', keeps every other character, and never creates or removes a '.' |
| Uploads.Lower | app/routes.py:52 | lowering keeps the length and lowers each character in place |
| Uploads.Extension | app/routes.py:52 | the text after the last '.': None exactly when the name has no '.'; otherwise a suffix of the name, preceded by a '.', containing no '.' |
| Uploads.LastDotDeterminesExtension | app/routes.py:52 | any '.' followed by no other '.' is the split point: the extension is the text after it |
| Uploads.AllowedFile | app/routes.py:51-52 | `allowed_file`: the name has a '.' and the lower-cased text after the last one is in the extension set; its meaning is stated by Uploads.AllowedFileMeaning |
| Uploads.AllowedFileMeaning | app/routes.py:49-52 | a name is accepted iff it has a '.' followed by no other '.', and the lower-cased text after it is one of pdf, doc, docx, txt, png, jpg |
| Uploads.NoDotRejected | app/routes.py:52 | a name without '.' is rejected |
| Uploads.ExtensionOfLower | app/routes.py:52 | lowering a name keeps whether it has an extension, and lowers the extension |
| Uploads.AllowedFileIgnoresCase | app/routes.py:52 | two names equal up to case are both accepted or both rejected |
| Uploads.AcceptsPdf | app/routes.py:49-52 | "essay.pdf" is accepted |
| Uploads.AcceptsUpperCase | app/routes.py:49-52 | "Final.DOCX" is accepted |
| Uploads.AcceptsBareExtension | app/routes.py:49-52 | ".txt" is accepted |
| Uploads.RejectsDoubleExtension | app/routes.py:49-52 | "notes.pdf.exe" is rejected: only the last extension counts |
| Uploads.RejectsJpeg | app/routes.py:49-52 | "photo.jpeg" is rejected: the set is fixed at six extensions |
| Chat.Filter | app/routes.py:89-92 | a filter result never grows, and holds exactly the elements of the input that satisfy the condition |
| Chat.FilterCounts | app/routes.py:89-92 | filtering keeps every satisfying element as often as it occurs and drops the rest |
| Chat.FilterPermutation | app/routes.py:89-92 | filtering two permutations of each other gives permutations of each other |
| Chat.FilterKeepsOrder | app/routes.py:89-92 | filtering a time-ordered sequence gives a time-ordered sequence |
| Chat.InsertByTime | app/routes.py:92 | insertion adds one element: the result is the input plus the new message, as a multiset |
| Chat.InsertKeepsOrder | app/routes.py:92 | inserting into a time-ordered sequence keeps it time-ordered, and the first element is the new one or the old first one |
| Chat.SortByTime | app/routes.py:55 | ordering messages by timestamp gives a time-ordered permutation of them |
| Chat.SenderOrder | app/routes.py:56-58 | the key order of the grouping dictionary has no repeats and holds exactly the senders of the messages |
| Chat.GroupBySender | app/routes.py:56-59 | the loop's dictionary has exactly the senders as keys; each group is that sender's messages in input order and is non-empty; keys come in first-message order; group sizes add up to the number of messages |
| Chat.GroupAllIsGrouping | app/routes.py:56-58 | the groups built by walking any message sequence one `setdefault(...).append` step at a time have exactly the senders as keys, each group is that sender's messages in order and non-empty, and the sizes add up to the number of messages |
| Chat.EachMessageInOneGroup | app/routes.py:56-58 | in a grouping by sender, every message lies in its own sender's group, and every group holds only messages of its key |
| Chat.SortedGroup | app/routes.py:55-58 | taking one sender's messages from the time-ordered table gives that sender's messages, time-ordered |
| Chat.GroupsOfSortedTable | app/routes.py:55-58 | grouping the time-ordered table gives, for every sender and only for senders, a non-empty time-ordered group holding exactly its messages |
| Chat.KeyOrderByFirstTime | app/routes.py:55-58 | walking a time-ordered table meets the senders in the order of the time of their first message |
| Chat.KeysInFirstMessageOrder | app/routes.py:55-58 | grouping a time-ordered table lists the keys so that each group's earliest message is no later than that of any group listed after it |
| Chat.ReplyFiledUnderSender | app/routes.py:54-59 | in a grouping by sender of a table holding a message, the message is in its sender's group and not in its receiver's: an admin reply is filed under the admin, not under the client it answers |
| Chat.NumberedRowsAreDistinct | app/models.py:76 | rows whose ids are their positions plus one never repeat: each occurs at most once |
| Chat.MessageStore.NoRowTwice | app/models.py:76 | a valid table holds no message twice |
| Chat.MessageStore.SendMessage | app/routes.py:73-84 | missing or empty text: EmptyMessage and nothing stored; otherwise exactly one message is appended, from the current user to id 0, not an admin message, with the next id |
| Chat.MessageStore.Contact | app/routes.py:371-385 | a missing message field: MissingContent and nothing stored; otherwise exactly one message is appended, from guest 0 to admin 1, not an admin message |
| Chat.MessageStore.ReplyToUser | app/routes.py:392-405 | a missing or non-numeric user id: BadUserId; a missing text: MissingContent; in both cases nothing stored. Otherwise exactly one message is appended, from the acting admin to that user, marked as an admin message |
| Chat.MessageStore.MessagesFor | app/routes.py:86-92 | a user's conversation holds exactly the stored messages it sent or received, each as often as stored, oldest first |
| Chat.MessageStore.GroupedChats | app/routes.py:54-59 | the admin's grouping of the time-ordered table: keys are exactly the senders, each group is non-empty, time-ordered and exactly that sender's messages; keys listed by the time of each group's earliest message; sizes add up to the table size |
| Chat.ChatScenario | app/routes.py:73-92 | a contact message, a client message and an admin reply are stored with ids 1-3; an empty chat message is refused; the client sees its message and the reply; the grouping files the reply under the admin, not the client |
| OrderAdmin.OrderTable.Get | app/routes.py:356 | lookup fails with NotFound exactly when no order has the id, and otherwise returns the stored order, whose id is the one asked for |
| OrderAdmin.OrderTable.UpdateOrder | app/routes.py:354-361 | a missing id: NotFound; a missing status field: MissingStatus; in both cases no change. Otherwise only that order's status changes, to any text; the ids and every other order stay as they were |
| OrderAdmin.OrderTable.DeleteOrder | app/routes.py:363-369 | a missing id: NotFound and no change; otherwise exactly that id is removed and every other order stays as it was |
| OrderAdmin.OrderLifecycle | app/routes.py:354-369 | an order priced 100.0 and created Pending is set to Completed and back to Pending, refuses an update without status, is deleted and then not found |

## Left out

- Flask routing, templates, redirects, flash messages and the JSON and `strftime` formatting of
  responses are presentation. The model returns the stored data and the error outcome instead.
- SQLAlchemy sessions, queries, pagination and `ilike` search are replaced by in-memory sequences and maps.
  Autoincrement ids are the position in the table plus one.
- How the database orders rows with equal timestamps is not modelled. The model sorts stably. The store's
  contracts promise only what holds for every order of tied rows.
- Chat.MessageStore.GroupedChats: the relative order of two senders whose earliest messages share a
  timestamp is not promised, because it depends on how the database orders tied rows.
- Sub-second parts of timestamps are not modelled: time is whole seconds.
- Binary floating-point rounding of prices is not modelled: prices are exact reals.
- Pricing.CalculatePrice: states sign and zero facts; the exact product is stated by
  Pricing.PriceInFortieths, and the multiplier tables by their own functions.
- Uploads.Lower: only ASCII letters are lowered, whereas Python lowers all of Unicode. The only
  non-ASCII characters that lower to ASCII are the Kelvin sign (to 'k') and the dotted capital I
  (to 'i' plus a combining mark). Neither can produce one of the allowed extensions, so the accepted
  names are the same.
- Outbound email on order submission is a foreign network call.
- Order creation in the order form view is left out. It passes fields the `Order` record does not have,
  so it has no coherent behaviour to model. `Models.NewOrder` models the record's own defaults instead.
- Saving uploaded files and `secure_filename` are library calls.
- Password hashing is a library call.
- Login, sessions, `current_user` and the `login_required` guards are left out; the acting user's id
  is a parameter. The admin pages modelled here check no role in the code, and the model checks none either.
- The GET branch of `update_order` only renders a page, so it is left out.
- The chat widget's JSON value is taken as text. A JSON value of another type is not modelled.
- Chat.MessageStore.ReplyToUser: the reply form's user id is parsed with `int`. The model takes the
  parsed value as an `Option<int>`, with None for a missing or non-numeric id, and does not model
  the parsing itself.
- Reading the whole table as JSON, and the other admin listing pages, are left out: they are queries
  with no logic beyond ordering.
- The form validators, the browser chat script, the schema migration and the application setup
  are configuration, UI code and library wiring, and are not part of this model.
