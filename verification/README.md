# DISE SMS number service — a Dafny model

DISE hands out temporary phone numbers and collects the SMS messages sent to them. A user leases a
number for a few hours. Providers (Twilio, Nexmo/Vonage, or a generic sender) post incoming messages
to a webhook. The service files each message under the number and its holder, detects one-time
passcodes, and pushes a live notification to the holder's socket rooms. Two back ends implement it:
a Node/Express/Mongoose one and a Flask/SQLAlchemy one. A React client lists numbers and messages.

This project models the decision logic of both back ends and of the client's pure helpers:

- the two number models (`PhoneNumber.js`, `phone_number.py`) and the two message models
  (`Message.js`, `message.py`), with passcode detection, lease assignment, expiry and clean-up;
- the number, message, user and webhook routes of both back ends, and the Node error middleware;
- the Flask authentication routes;
- the Flask Socket.IO connection registry;
- the provider table;
- the helpers of the React pages `PhoneNumbers.jsx`, `Messages.jsx` and `Dashboard.jsx`.

Stores are sequences of records in insertion order, and a query's first match is the first record
in that order. Times are whole milliseconds since the epoch, and ids are natural numbers. A route is
a function from the stores and the request to a `Reply`: a status with a payload, or a status with
the body's machine-readable `code`. A failing route leaves every store as it was. Hashing, signature
computation, JWT decoding, clocks and the database's id assignment are parameters.

There is one module per source file, and the helper modules are shared by both back ends:

- `Text` (ASCII case folding, trimming, digits);
- `Collections` (filter, first match, count, sort);
- `Paging`;
- `Joi` (the validation rules the Node routes use);
- `OtpPatterns` (scanners for the passcode regular expressions, each proved equal to the regular
  expression's own reading).

## Model

| member | source | states |
|---|---|---|
| JsPhoneNumber.SchemaErrors | PhoneNumber.js:4-23 | A new number is accepted exactly when the trimmed number matches `^\+[1-9]\d{1,14}$`, the country code has 2 or 3 characters and the provider is one of twilio, nexmo, vonage, other. Each error names one of those three fields. |
| JsPhoneNumber.FormattedNumber | PhoneNumber.js:94-114 | Formatting never changes the digits of a number. A `+1` number with exactly 11 digits takes the `+1 (AAA) BBB-CCCC` layout of its digits 2 to 11. A `+44` number with at least 10 digits takes the `+44 AAAA BBB CCC…` layout of its digits from the third on. Every other number is returned unchanged, including a `+1` number without 11 digits and a `+44` number with fewer than 10. |
| JsPhoneNumber.NorthAmerican | PhoneNumber.js:98-103 | Position by position the text is `+1 (`, digits 2–4, `) `, digits 5–7, `-`, digits 8–11. It holds exactly the eleven digits it was built from. |
| JsPhoneNumber.British | PhoneNumber.js:104-109 | Position by position the text is `+44 `, digits 3–6, a space, digits 7–9, a space, then the remaining digits. It holds exactly the digits it was built from. |
| JsPhoneNumber.AssignToUser | PhoneNumber.js:117-123 | Assignment sets holder, status `assigned`, `assignedAt = now` and `expiresAt = now + hours`. Every other field is unchanged, and the result satisfies the save hook's consistency rule. |
| JsPhoneNumber.AssignedLeaseLasts | PhoneNumber.js:147-150 | A fresh assignment is not expired at time `t` exactly when `t <= now + hours`. |
| JsPhoneNumber.ExtendAssignment | PhoneNumber.js:126-134 | Extension succeeds exactly for an assigned number. It adds the hours to the current expiry, or to `now` when there is none, and changes nothing else. |
| JsPhoneNumber.ExtendCanLeaveExpired | PhoneNumber.js:126-134 | Extending an expiry that lies far enough in the past leaves the lease still expired. |
| JsPhoneNumber.Release | PhoneNumber.js:137-144 | A released number is available with `releasedAt = now`, and has no holder, assignment time or expiry. It keeps its id, number, country, provider, creation time and message list, and is not expired. |
| JsPhoneNumber.ReleaseTwice | PhoneNumber.js:137-144 | Releasing twice equals releasing once at the later time. |
| JsPhoneNumber.PreSave | PhoneNumber.js:196-210 | The save hook refuses exactly an assigned number without a holder. Otherwise it keeps the status and makes the document consistent, and a consistent document passes unchanged. |
| JsPhoneNumber.PreSaveIdempotent | PhoneNumber.js:196-210 | Running the save hook on its own output changes nothing. |
| JsPhoneNumber.FindAvailable | PhoneNumber.js:159-165 | `findAvailable` returns, in store order, the first `limit` numbers that are free and of the upper-cased country when a non-empty code is given. A limit of 0 returns all of them. |
| JsPhoneNumber.FindByUser | PhoneNumber.js:168-174 | `findByUser` returns exactly the numbers the user holds, restricted to the status when one is given, in store order. |
| JsPhoneNumber.FindExpired | PhoneNumber.js:177-182 | `findExpired` returns exactly the assigned numbers whose expiry lies strictly before now, in store order. |
| JsPhoneNumber.CleanupOne | PhoneNumber.js:188-190 | After one clean-up step, a number is not overdue and keeps its id. |
| JsPhoneNumber.CleanupExpired | PhoneNumber.js:185-193 | Clean-up releases exactly the overdue numbers and leaves the others unchanged. It reports how many `findExpired` found, and afterwards `findExpired` is empty. |
| JsPhoneNumber.CleanupExpiredTwice | PhoneNumber.js:185-193 | A second clean-up at the same instant changes nothing and reports 0. |
| JsPhoneNumber.CleanupKeepsConsistency | PhoneNumber.js:185-193 | Clean-up keeps every number consistent and keeps ids unique. |
| JsMessage.TypeName | Message.js:29-33 | Every message type is stored as one of the six spellings in the schema's enum. |
| JsMessage.ParseType | Message.js:29-33 | A spelling names a type exactly when it is one of the six enum values, and that type is stored under the same spelling. |
| JsMessage.ParseTypeName | Message.js:29-33 | Reading back a type's stored spelling gives that type. |
| JsMessage.LabelledFrom | Message.js:113-120 | Trying the labelled patterns in order gives a 4–8 digit run that occurs in the content and comes from the first pattern whose first match is usable. It gives nothing exactly when no pattern from `n` on is usable. |
| JsMessage.LabelledStep | Message.js:136-150 | Skipping an unusable pattern does not change which pattern is the first usable one. |
| JsMessage.LabelCode | Message.js:113-120 | A labelled pattern's capture is a non-empty digit run that occurs in the content. |
| JsMessage.PatternCode | Message.js:113-150 | The code is a 4–8 digit run of the content. A standalone 4–8 digit word wins when there is one; otherwise the first usable labelled pattern gives the code. |
| JsMessage.DetectOtp | Message.js:109-157 | Detection changes only the type and the passcode. Content without a keyword is left alone and nothing is returned. With a keyword, a found code makes the message `otp` with that code, and a missing code makes it `verification`. Well-formedness is preserved. |
| JsMessage.DetectOtpIdempotent | Message.js:109-157 | Running detection on its own output changes nothing. |
| JsMessage.ExampleCodeDetected | Message.js:109-157 | "Your code: 482913" yields 482913 and the `otp` type. |
| JsMessage.ExampleBareRunFirst | Message.js:113-120 | A bare five-digit run earlier in the text wins over a labelled code later on. |
| JsMessage.ExampleVerificationOnly | Message.js:153 | "Please verify your login" becomes a `verification` message without a code. |
| JsMessage.KeywordWithoutDigits | Message.js:153 | Any content with a keyword and no digit becomes `verification` without a code. |
| JsMessage.ExampleNoKeyword | Message.js:130-132 | "see you at noon" has no keyword, so detection leaves it untouched. |
| JsMessage.PreSave | Message.js:260-265 | The save hook leaves alone a document that is not new or already has a passcode, and otherwise changes only type and passcode. |
| JsMessage.PreSaveAfterDetect | Message.js:260-265 | A document that has been through detection is saved unchanged. |
| JsMessage.UnstarredAppend | Message.js:160-170 | Removing the highlight stars distributes over concatenation. |
| JsMessage.HighlightFrom | Message.js:160-170 | Highlighting equals the position-by-position rule `Marked`: `**` before and after each whole-word occurrence of the code, every other character copied. Removing every star gives back the original text, and text without a whole-word occurrence is returned as it is. |
| JsMessage.StartsIsolated | Message.js:163-166 | Whole-word occurrences of an all-digit code never overlap: no other occurrence starts within a code length of one. |
| JsMessage.WordsApart | Message.js:163-166 | Of two whole-word occurrences of an all-digit code, the later one starts at or after the end of the earlier one. |
| JsMessage.MarkedRun | Message.js:166 | Inside an occurrence no marker is added: up to any position within it, the marked text is the opening `**` followed by the characters as they are. |
| JsMessage.MarkedWord | Message.js:166 | At an occurrence the marked text is `**`, the occurrence, `**`, then the marking of the rest. |
| JsMessage.NotInsideNext | Message.js:166 | Stepping past a copied character or past a whole occurrence leaves the scan outside every occurrence. |
| JsMessage.HighlightedWord | Message.js:166 | At a whole-word occurrence `Marked` emits `**`, the code, `**` and continues after the occurrence. |
| JsMessage.CopiedChar | Message.js:166 | Outside every occurrence, `Marked` copies one character and continues with the next. |
| JsMessage.FormattedContent | Message.js:160-170 | With a passcode, the formatted content is `Marked`: each whole-word occurrence of the passcode wrapped in `**`, nothing else changed. Without one it is the content itself. In every case it differs from the content only by `**` markers. |
| JsMessage.MarkAsRead | Message.js:102-106 | Marking sets read and the read time, and changes nothing else. |
| JsMessage.MarkAllAsReadForUser | Message.js:236-246 | Exactly the user's unread messages (on the given number) are marked read. The count reported is how many there were, and none are left. |
| JsMessage.MarkAllAsReadTwice | Message.js:236-246 | A second bulk mark changes nothing and reports zero. |
| JsMessage.SelectedSorted | Message.js:210-233 | The selection is a permutation of the matching messages, in the requested time order. |
| JsMessage.SelectedSortedMembers | Message.js:210-233 | Every selected message is in the store and matches every filter given. |
| JsMessage.FindByUser | Message.js:210-233 | A page is exactly the window `skip(offset).limit(limit)` of the user's matching messages sorted in the requested time order (no limit when it is 0). Each one is a stored message matching the filters. |
| JsMessage.WindowKeepsOrder | Message.js:230-232 | A window of a newest-first (oldest-first) list is newest-first (oldest-first). |
| JsMessage.WindowOfSelected | Message.js:210-232 | Every message in a window of the sorted selection is a stored message matching the filters. |
| JsMessage.CleanupOldMessages | Message.js:249-257 | The kept store is exactly the messages received at or after the cut-off, in order. The count reported is the number of messages received before it. |
| JsMessage.SchemaErrors | Message.js:3-81 | A new message is accepted exactly when both numbers are non-blank, the content is non-empty with at most 1600 UTF-16 code units, and the provider is one of the four enum values. Longer content is refused on `content`. |
| Text.Utf16Length | Message.js:27 | The length JavaScript checks: the character count plus one more unit for every character above U+FFFF, so it lies between the character count and twice it, and equals the character count exactly when no character lies above U+FFFF. |
| JsMessage.FindNumber | Message.js:176-180 | The lookup finds the first number document with that number, or reports that none has it. |
| JsMessage.Recipient | Message.js:176-183 | A recipient is a number document for the trimmed `to` number, assigned to an existing user. |
| JsMessage.CreateFromWebhook | Message.js:173-207 | Creation fails with "not found or not assigned" exactly when there is no recipient, and with a validation error exactly when the schema refuses. Otherwise the new message carries the webhook's fields, belongs to the holder, and is appended to the number's message list, and no other number changes. Its type follows detection: `sms` with no keyword, `otp` with the detected code when a keyword and a code pattern match, `verification` without a code otherwise. |
| ErrorHandler.Capitalised | errorHandler.js:20-21 | Capitalising keeps the length, upper-cases the first character and keeps the rest. |
| ErrorHandler.OverrideOf | errorHandler.js:8-70 | Each of the six checks puts its own status and code in place of the error: 404 `RESOURCE_NOT_FOUND`, 409 `DUPLICATE_RESOURCE` naming the capitalised field, 400 `VALIDATION_ERROR` with the field errors, 401 `INVALID_TOKEN`, 401 `TOKEN_EXPIRED` and 429 `RATE_LIMIT_EXCEEDED`. Only the duplicate check sets a field, and only the validation check lists errors. |
| ErrorHandler.RunFrom | errorHandler.js:8-70 | Running the checks in order leaves the override of the last check that applies. When none applies, what was chosen before is kept. |
| ErrorHandler.Chosen | errorHandler.js:8-70 | An override is chosen exactly when some check applies, and it is the one of the last check that applies. |
| ErrorHandler.Handle | errorHandler.js:1-88 | The middleware throws exactly when the duplicate-key or validation data it reads is missing. Otherwise it answers with the chosen override, or else with the error's own non-zero status and truthy code, falling back to 500, `INTERNAL_ERROR` and "Internal server error". The message is never empty, and the stack appears exactly in development. |
| ErrorHandler.CastErrorIsNotFound | errorHandler.js:9-16 | A bad id becomes 404 `RESOURCE_NOT_FOUND` unless the duplicate or rate-limit check applies as well. |
| ErrorHandler.DuplicateKeyMessage | errorHandler.js:19-28 | A duplicate key answers 409 with "<Field> already exists". |
| ErrorHandler.RateLimitWins | errorHandler.js:64-70 | A 429 error always answers 429 `RATE_LIMIT_EXCEEDED`, whatever else it matches. |
| ErrorHandler.ChosenIsLast | errorHandler.js:8-70 | When a check applies and no later one does, its override is the one chosen. |
| ErrorHandler.ValidationEntries | errorHandler.js:31-44 | A validation error answers 400 `VALIDATION_ERROR` with the field errors in order. |
| ErrorHandler.PlainErrorIsInternal | errorHandler.js:72-75 | An error no check recognises, with no status and no code of its own, answers 500 `INTERNAL_ERROR`. |
| Joi.NumberIn | numbers.js:12 | A bounded number parameter takes its default when absent, is refused when it is not a number or out of range, and otherwise keeps its value. |
| Joi.NumberAtLeast | numbers.js:194 | A number with only a lower bound takes its default when absent, is refused when it is not a number or below the bound, and otherwise keeps its value. |
| Joi.OptionalCode | numbers.js:11 | An optional code is accepted when absent, or when it is non-empty with exactly the required length. It is then stored upper-cased. |
| JsMessagesRoute.HexDigitValue | messages.js:25 | A hexadecimal digit has a value below 16. |
| JsMessagesRoute.CastId | messages.js:135-170 | A path value casts to an id exactly when it is 24 hexadecimal characters. |
| JsMessagesRoute.CastFailure | errorHandler.js:9-16 | A failed cast reaches the middleware and answers 404 `RESOURCE_NOT_FOUND`. |
| JsMessagesRoute.ShortWordIsNoId | messages.js:135-170 | A path word shorter than 24 characters, such as `stats` or `search`, never casts to an id. |
| JsMessagesRoute.Dispatch | messages.js:11-427 | The router answers with the endpoint of the first declared route that fits the request, and with nothing exactly when no route fits. |
| JsMessagesRoute.StatsAndSearchShadowed | messages.js:135-170 | As declared, `GET /stats` and `GET /search` are taken by `GET /:id`, which answers 404 `RESOURCE_NOT_FOUND` for them. |
| JsMessagesRoute.DispatchIs | messages.js:11-427 | When route `k` fits and no earlier route does, the router picks route `k`. |
| JsMessagesRoute.DispatchNone | messages.js:11-427 | When no route fits, the router has no handler. |
| JsMessagesRoute.RouteShapes | messages.js:11-427 | The seven routes in the declared order are the intended ones with the two fixed GET paths moved after `/:id`. |
| JsMessagesRoute.FitsDeclared | messages.js:11-427 | When each declared route fits, in terms of verb and path segments. |
| JsMessagesRoute.FitsIntended | messages.js:11-427 | Each intended route fits exactly the requests its declared counterpart fits, and leads to the same endpoint. |
| JsMessagesRoute.IntendedStatsAndSearch | messages.js:257-260 | With the fixed paths declared first, `GET /stats` and `GET /search` reach their own handlers. |
| JsMessagesRoute.IntendedRoutesAgreeElsewhere | messages.js:11-427 | Reordering routes changes the routing of no request other than those two. |
| JsMessagesRoute.SameOrderOfFitting | messages.js:11-427 | Two route tables that fit the same requests in the same relative order dispatch alike. |
| JsMessagesRoute.Options | messages.js:24-59 | An accepted query limits to 1..100 per page and skips `(page-1)*limit`. It sorts newest first unless `oldest` is asked for, and reads `isRead` as true only for the word `true`. |
| JsMessagesRoute.ListMessagesPage | messages.js:11-130 | A refused query answers 400. For an accepted query, success holds exactly when no number is asked for or the caller holds it, and otherwise the answer is 404. On success the page is exactly the window at `(page-1)·limit` of length `limit` of the caller's matching messages in the requested order. The total counts every match, and the page count is the ceiling of total over limit. |
| JsMessagesRoute.IsReadOnlyExactTrue | messages.js:37 | `isRead=True` (any spelling but `true`) filters for unread messages. |
| JsMessagesRoute.GetMessage | messages.js:135-170 | A malformed id answers 404 `RESOURCE_NOT_FOUND`. Otherwise the reply is the caller's message with that id, or 404 `MESSAGE_NOT_FOUND` exactly when the caller has none. |
| JsMessagesRoute.MarkRead | messages.js:175-214 | Marking succeeds exactly for the caller's own message. Only that message changes, and an already-read message is kept as it is. |
| JsMessagesRoute.MarkReadKeepsFirstReadTime | messages.js:195-201 | Marking a message read a second time changes nothing, so the first read time is kept. |
| JsMessagesRoute.ReadAll | messages.js:219-255 | Success holds exactly when no number id is given, or a well-formed one of a number the caller holds. A malformed id answers 404 `RESOURCE_NOT_FOUND`, and a number the caller does not hold answers 404 `PHONE_NUMBER_NOT_FOUND`. On success each unread message of the caller in scope becomes read at `now`, every other message is unchanged, and the count reported is how many were marked. |
| JsMessagesRoute.MessageCounts | messages.js:260-328 | Each counter counts the caller's messages of its kind: all, unread, `otp`, `verification`, and received since the start of the day. Unread and today are within the total, and so are `otp` and `verification` together. |
| JsMessagesRoute.TypeDistribution | messages.js:283-288 | `messageTypeStats`: each type the caller has messages of appears once with its count, and no other type appears. Counts are in non-increasing order. |
| JsMessagesRoute.PresentTypes | messages.js:284-286 | The `$group` stage: the types with a positive count, each once with that count. |
| JsMessagesRoute.RearrangedTypes | messages.js:287 | Reordering the groups, as the `$sort` does, keeps one entry per present type with its count. |
| JsMessagesRoute.RecentActivity | messages.js:290-307 | `recentActivity`: the caller's messages of the last seven days grouped by UTC day, in ascending day order. A day appears exactly when it has such a message, with their count. |
| JsMessagesRoute.DayCountsListed | messages.js:292-306 | The listed days are ascending and are exactly the days with messages, each with its count. |
| JsMessagesRoute.ActiveDay | messages.js:292-303 | A day has a positive count exactly when some recent message of the caller falls on it. |
| JsMessagesRoute.PasscodeTypesWithinTotal | messages.js:260-328 | The caller's `otp` and `verification` messages together never outnumber the caller's messages. |
| JsMessagesRoute.Pull | messages.js:358 | `$pull` removes every occurrence of the id and keeps every other element. |
| JsMessagesRoute.DeleteOwnMessage | messages.js:333-372 | Deletion succeeds exactly for the caller's own message. The kept store is exactly the messages with another id, in order. The number documents are `Unlink` of the first own message's number: only the first document with that id loses the message id. |
| JsMessagesRoute.Unlink | messages.js:355-359 | `findByIdAndUpdate` with `$pull`: only the first number document with the given id loses every copy of the message id. Every other document is unchanged and the length is kept. |
| JsMessagesRoute.DeleteUnlinksMessage | messages.js:354-359 | The number a deleted message arrived on no longer lists it. |
| JsMessagesRoute.ResultCap | messages.js:407 | The search limit defaults to 20. A zero limit means no limit, and any other limit caps the results at a positive count. |
| JsMessagesRoute.Search | messages.js:377-427 | Success holds exactly when the trimmed query has at least two UTF-16 units and any number id given is well formed. A short or missing query answers 400 `INVALID_SEARCH_QUERY`, and a malformed number id answers 404. On success the result is `SearchAnswer`: the first `cap` of the caller's hits sorted newest first (all of them without a cap). A hit is a message whose content, sender or code contains the text ignoring case. The reported total is the number returned. |
| JsMessagesRoute.Hits | messages.js:392-407 | The hits are the prefix of length `cap` (all without a cap) of every hit sorted newest first. Each is a matching message of the caller, and they are complete when the cap is not reached. |
| JsMessagesRoute.SortedHits | messages.js:392-406 | The sorted hits are a newest-first permutation of the caller's matching messages. |
| JsMessagesRoute.HitsAreNewest | messages.js:406-407 | Under a cap the search keeps the newest hits: any hit left out is no newer than every hit returned. |
| JsMessagesRoute.NewestByKey | messages.js:404-407 | Sorting by descending receipt time is newest first, and so is every prefix of the result. |
| JsNumbersRoute.ListAvailable | numbers.js:22-76 | A query with a bad country code, a limit outside 1..50 or an unknown provider answers 400 `VALIDATION_ERROR`, and every other query succeeds. A success is exactly the first `limit` of the free numbers matching the filters, newest first. The total counts every match, and when it fits within the limit every match is listed. |
| JsNumbersRoute.NewestOffered | numbers.js:42-55 | The list is exactly the first `limit` of the matching free numbers sorted newest first. They are complete when the total fits. |
| JsNumbersRoute.OfferedNewestFirst | numbers.js:49-56 | The sorted selection is a newest-first permutation of the free numbers matching the filters. |
| JsNumbersRoute.ValidateAssign | numbers.js:9-13 | An assignment body is accepted exactly when it names no unknown field, any number is in the international shape, any country code has two characters and any duration is 1 to 24 hours. The default duration is 1 hour. |
| JsNumbersRoute.Cap | numbers.js:107 | The cap on held numbers is 50 or 5. |
| JsNumbersRoute.Assign | numbers.js:81-181 | A refused body answers 400 `VALIDATION_ERROR`, and a caller at the cap answers 400 `LIMIT_EXCEEDED`. Otherwise assignment succeeds exactly when a wanted free number exists. The first such number is assigned to the caller for the requested hours and nothing else changes. The failure is 404 `NUMBER_NOT_AVAILABLE` for a named number and `NO_NUMBERS_AVAILABLE` otherwise. |
| JsNumbersRoute.AssignRespectsCap | numbers.js:102-116 | After a successful assignment the caller holds no more numbers than the cap. |
| JsNumbersRoute.AssignTouchesOneNumber | numbers.js:155 | An assignment changes only a free number, which it gives to the caller. |
| JsNumbersRoute.ExpiredFilterIsExpired | numbers.js:216-223 | The `expired` filter selects exactly the caller's assigned numbers that are expired, and every one of them also passes the `assigned` filter. |
| JsNumbersRoute.AssignedAtKey | numbers.js:230 | Numbers never assigned sort after every assigned one. |
| JsNumbersRoute.MyNumbers | numbers.js:186-265 | A bad status, page or limit answers 400. Otherwise the page is exactly the window at `(page-1)·limit` of length `limit` of the caller's numbers that pass the filter, most recently assigned first. The total counts every match, and the page count is the ceiling of total over limit. |
| JsNumbersRoute.MineRecentFirst | numbers.js:214-230 | The sorted selection is a most-recently-assigned-first permutation of the caller's numbers that pass the filter. |
| JsNumbersRoute.KeyOrderIsRecentFirst | numbers.js:229-233 | Sorting by the assignment-time key puts the most recently assigned first, and never-assigned numbers last. |
| JsNumbersRoute.WindowRecentFirst | numbers.js:225-232 | Every page of a most-recently-assigned-first list keeps that order. |
| JsNumbersRoute.Extend | numbers.js:270-327 | A missing or out-of-range duration answers 400. A malformed id then answers 404 `RESOURCE_NOT_FOUND`. Otherwise extension succeeds exactly when the caller holds that number as assigned, and fails with 404 `NUMBER_NOT_FOUND`. A success moves only that number's expiry forward by the hours, counted from the old expiry, or from now when there is none. |
| JsNumbersRoute.ReleaseNumber | numbers.js:332-368 | A malformed id answers 404 `RESOURCE_NOT_FOUND`. Otherwise release succeeds exactly when the caller holds the number, and fails with 404 `NUMBER_NOT_FOUND`. On success that number alone returns to the pool, free and without holder. |
| JsNumbersRoute.ReleaseIgnoresStatus | numbers.js:337-341 | A suspended number its holder releases goes back to the pool, because the lookup does not look at the status. |
| JsNumbersRoute.NumberStats | numbers.js:373-408 | Each counter counts its kind: the caller's numbers, those assigned, those assigned and overdue, and every free number. Overdue ≤ active ≤ the caller's total ≤ the store size. |
| JsNumbersRoute.CreateNumber | numbers.js:415-459 | A body the schema refuses answers 400. That covers the number pattern, the two-letter country, the provider list, a non-empty provider id, a cost of at least 0, a three-letter currency, the capability list and unknown keys. An existing number answers 409 `DUPLICATE_RESOURCE`. Otherwise the store gains one number, which is free, unheld, without messages and created at `now`. It carries the given number and provider and the upper-cased country code, and the model schema accepts it. Numbers stay unique. |
| JsNumbersRoute.TrimE164 | PhoneNumber.js:4-10 | The model schema's trim leaves a number in the international shape unchanged. |
| JsUsersRoute.Name | users.js:39-40 | A name field, when given, is accepted exactly when it is non-blank and at most 50 characters once trimmed, and the trimmed text is stored. An absent name is accepted as no change. |
| JsUsersRoute.ValidateUpdate | users.js:370-377 | An update is accepted exactly when it has no unknown field, both names pass, any email is a non-empty address and any role is one of the three. Only an administrator may set role, active flag or verification. The email is passed on as given. |
| JsUsersRoute.Apply | users.js:76 | Each given field replaces the stored one, every absent field is kept, and id and creation time never change. |
| JsUsersRoute.ApplyNothing | users.js:76 | An empty update leaves the user as it was. |
| JsUsersRoute.FindByEmail | users.js:63 | The lookup finds a user with that address, and finds none exactly when no user has it. |
| JsUsersRoute.ConflictIsAnotherUser | users.js:61-73 | A conflicting address is always held by a different user. |
| JsUsersRoute.Update | users.js:61-78 | Saving fails with 409 `EMAIL_EXISTS` exactly when a new, different address is already held. Otherwise only this user changes, by the given fields. |
| JsUsersRoute.UpdateProfile | users.js:36-95 | A refused body answers 400. An accepted one behaves as the save above. A success changes no other user and never changes role, active flag or verification. |
| JsUsersRoute.UnchangedEmailSkipsCheck | users.js:61 | Re-sending one's own address never conflicts, even when another account holds the same address. |
| JsUsersRoute.UserAt | users.js:390-404 | A malformed id answers 404 `RESOURCE_NOT_FOUND`, and a well-formed id with no user answers 404 `USER_NOT_FOUND`. Otherwise the lookup finds the user with that id. |
| JsUsersRoute.AdminUpdate | users.js:368-440 | Validation is checked before the lookup, and the lookup's failure is answered as is. With a valid body and a found user, the answer is exactly `Update`. That is 409 `EMAIL_EXISTS` when another user holds the new address, and otherwise the changes written to that user alone. The id is kept and the role stays valid. |
| JsUsersRoute.FreeIfHeld | users.js:227-238 | A number the deleted user held is released, and any other number is kept. |
| JsUsersRoute.Cascade | users.js:226-244 | Each number the user holds becomes exactly `JsPhoneNumber.Release` of it at `now`, and every other number is unchanged. The messages are exactly those of other users, and the accounts exactly those with another id, both in order. |
| JsUsersRoute.CascadeKeepsConsistency | users.js:226-238 | After the cascade every number document still satisfies the save hook's consistency rule. |
| JsUsersRoute.DeleteAccount | users.js:198-254 | A missing password answers 400 `PASSWORD_REQUIRED` and a wrong one 401 `INVALID_PASSWORD`. Deletion happens exactly when the password matches, and then it is the cascade for the caller. |
| JsUsersRoute.AdminDelete | users.js:445-501 | Success holds exactly when the id names an existing user other than the caller. The lookup's failure is answered as is, and deleting oneself answers 400 `CANNOT_DELETE_SELF`. A success reports the deleted id and is the cascade of that user. |
| JsUsersRoute.AdminKeepsOwnAccount | users.js:460-467 | The administrator's own account survives every admin deletion. |
| JsUsersRoute.CreatedKey | users.js:288 | The sort key is never positive: the newest account has the smallest key. |
| JsUsersRoute.ListUsers | users.js:261-321 | The skip `(page-1)·limit` is negative exactly when the answer is the driver's 500. Otherwise the page is exactly the window at the skip of the matching users, newest account first. Matching means role, active flag and the case-insensitive search. The window length is `limit`: its magnitude when negative, and every match when 0. The total counts every match, the page and limit are echoed, and the page count is `PagesShown`. |
| JsUsersRoute.PagesShown | users.js:313 | `Math.ceil(total / limit)`: absent (JSON `null`) exactly for a zero limit, the ceiling for a positive one, and the ceiling of the negative quotient for a negative one. |
| JsUsersRoute.LimitOf | users.js:290 | `limit(0)` is no limit, and a negative limit counts as its magnitude. |
| JsUsersRoute.WindowNewestFirst | users.js:288-290 | Every page of a newest-first list is newest first. |
| JsUsersRoute.UsersNewestFirst | users.js:270-288 | The sorted selection is a newest-account-first permutation of the matching users. |
| JsUsersRoute.CreatedKeyOrder | users.js:288 | Sorting by the creation key puts the newest account first. |
| JsWebhooks.Signature | webhooks.js:12 | The signature read is the Twilio header when that is non-empty, else the Nexmo header, and it is present exactly when one of them is. |
| JsWebhooks.Expected | webhooks.js:33-44 | Only twilio (keyed SHA-1, base64) and nexmo (keyed SHA-256, hex) have an expected signature. |
| JsWebhooks.VerifySignature | webhooks.js:9-68 | Without a configured secret every request passes. With one, a request without a signature answers 401 `MISSING_SIGNATURE`. A request passes exactly when its signature equals the expected one, and every refusal is a 401. |
| JsWebhooks.UnknownProviderNeverPasses | webhooks.js:30-46 | With a secret set, a provider other than twilio and nexmo is always refused. |
| JsWebhooks.SignedTwilioRequestPasses | webhooks.js:33-38 | A Twilio request signed with the keyed hash of its own body passes. |
| JsWebhooks.Lookup | webhooks.js:76-84 | A form field is present exactly when the body has it, with its value. |
| JsWebhooks.ParseInt | webhooks.js:135 | `parseInt` yields a number only when the text has a digit. |
| JsWebhooks.DigitRunOfDigits | webhooks.js:135 | In a string of digits the digit run from `i` reaches the end. |
| JsWebhooks.ParseIntOfDecimal | webhooks.js:137 | `parseInt` reads a decimal rendering back as the same number. |
| JsWebhooks.KindOf | webhooks.js:143-145 | An attachment is an image, video or audio exactly when its content type has that prefix, and a document otherwise. |
| JsWebhooks.Attachments | webhooks.js:135-150 | At most one attachment per media entry. Every entry is kept exactly when each has a URL. Each attachment carries the URL and content type of one entry, and its kind follows from the type. |
| JsWebhooks.WithOptional | webhooks.js:127-131 | A present value is stored under its key, an absent one leaves no key, and other keys are unchanged. |
| JsWebhooks.MediaCount | webhooks.js:135-137 | The handler walks media only when `NumMedia` is truthy, and then as many entries as it parses to. |
| JsWebhooks.TwilioMessageData | webhooks.js:119-153 | The message data takes sender, recipient and id from the form, content from `Body` or empty, and `numMedia` or "0". It is MMS exactly when media are walked, and the attachments are those media. |
| JsWebhooks.NexmoMessageData | webhooks.js:230-243 | The message data takes sender, recipient, id and `text` (or empty) from the body, has no attachments and is not MMS. |
| JsWebhooks.ValidationFailure | errorHandler.js:31-44 | A schema refusal answers 400 `VALIDATION_ERROR`. |
| JsWebhooks.InternalFailure | errorHandler.js:72-75 | A plain thrown error answers 500 `INTERNAL_ERROR`. |
| JsWebhooks.Addressed | webhooks.js:94-96 | The recipient lookup finds the first number document with the trimmed `To` number, when there is one. |
| JsWebhooks.Ingest | webhooks.js:94-181 | A refused signature, an unknown number (404 `PHONE_NUMBER_NOT_FOUND`), an unassigned number (400 `PHONE_NUMBER_NOT_ASSIGNED`) and a schema refusal (400) all leave the stores unchanged. A message is stored exactly when the signature passes, the number has a holder and the schema accepts, and then the stores are those the creation produced. |
| JsWebhooks.TwilioSms | webhooks.js:74-181 | A stored Twilio SMS is appended to the messages with the given id, its `Body` as content, the provider `twilio` and the `MessageSid`. |
| JsWebhooks.NexmoSms | webhooks.js:186-271 | A stored Nexmo SMS is appended with its `text` as content, the provider `nexmo` and the `messageId`. |
| JsWebhooks.EmptyTwilioBodyIsRefused | webhooks.js:124 | An SMS without text becomes empty content, which the message schema refuses, so nothing is stored. |
| JsWebhooks.DeliveryFields | webhooks.js:298-304 | A status report replaces the four delivery fields of the metadata and keeps every other key. |
| JsWebhooks.StatusCallback | webhooks.js:276-332 | A passed request always answers 200, reporting a message exactly when a Twilio message has that id. The reported id is that of the first such message, which alone gets the delivery fields merged into its metadata. Without one the store is unchanged. |
| JsWebhooks.TestMessageAs | webhooks.js:349-419 | In production the route answers 404, and missing fields answer 400 `MISSING_REQUIRED_FIELDS`. A failure stores nothing. A success appends one message with the given content under a provider the schema allows. |
| JsWebhooks.TestMessage | webhooks.js:380-390 | As written, the test route never stores a message, because the schema refuses the provider `test`. |
| JsWebhooks.TestMessageAlwaysRefused | webhooks.js:380-390 | A complete request for a held number still answers 400 `VALIDATION_ERROR`. |
| JsWebhooks.TestMessageFixed | webhooks.js:349-419 | With the provider `other`, production still answers 404, and a stored test message has the provider `other`. |
| JsWebhooks.TestMessageFixedStores | webhooks.js:349-419 | With the provider `other`, a well-formed request for a held number stores its message. |
| OtpPatterns.DigitRun | Message.js:115 | The run from `i` consists of digits, stays within the text and is maximal. |
| OtpPatterns.StandaloneLength | Message.js:115 | At any position the pattern `\b\d{4,8}\b` can only match the maximal digit run. |
| OtpPatterns.FirstStandaloneFrom | Message.js:115 | The scan finds the leftmost match of `\b\d{4,8}\b` at or after `p`, and finds none exactly when there is no match from `p` on. |
| OtpPatterns.FirstStandalone | Message.js:115 | The leftmost match of `\b\d{4,8}\b` in the text, when there is one. |
| OtpPatterns.StandaloneCode | Message.js:115 | A standalone code exists exactly when the pattern matches somewhere. It is a 4–8 digit run of the text. |
| OtpPatterns.StandaloneFirstAt | Message.js:115 | A standalone match with no digit anywhere before it is the one found. |
| OtpPatterns.StandaloneInLayout | Message.js:115 | A 4–8 digit run with no digit before it and non-word neighbours is the code found. |
| OtpPatterns.NoDigitNoCode | message.py:50-55 | Text without digits matches none of the passcode patterns. |
| OtpPatterns.JsSpaceIsNotWord | Message.js:116 | JavaScript white space is never a word character. |
| OtpPatterns.PySpaceIsNotWord | message.py:52 | Python white space is never a word character. |
| OtpPatterns.LabelledAtIsRegexMatch | Message.js:116-120 | The scanner's test at a position holds exactly when `label[:\s]*\d+` matches there: some separator run followed by some digit run. |
| OtpPatterns.FirstLabelledFrom | Message.js:116-120 | The scan finds the leftmost position from `p` where the labelled pattern matches, and finds none exactly when there is no such position. |
| OtpPatterns.LabelledCode | Message.js:116-120 | The labelled pattern matches exactly when the text has a match. The capture is then the whole digit run (greedy `\d+`) that starts after the separators of the leftmost match. |
| OtpPatterns.LabelledAtLower | Message.js:110 | Lower-casing the text does not change where a labelled pattern matches. |
| OtpPatterns.StandaloneAtLower | Message.js:110 | Lower-casing the text does not change where the standalone pattern matches. |
| OtpPatterns.KeywordAbsent | Message.js:123-127 | A keyword cannot occur in lower-cased text lacking one of its letters in both cases. |
| OtpPatterns.NoJsKeyword | Message.js:123-127 | Text lacking the letters v, f, h, c, p, l, i and r in both cases contains no Node keyword. |
| OtpPatterns.KeywordPresent | Message.js:130-132 | A lower-case keyword occurring in the text is found by the case-insensitive test. |
| OtpPatterns.PyKeywordsAreJsKeywords | message.py:57-60 | Every Flask keyword is also a Node keyword, so text the Flask side flags is flagged by Node too. |
| PyMessage.KindName | message.py:13 | A stored type is one of `sms`, `otp` and `verification`. |
| PyMessage.KindNameInjective | message.py:13 | Different types are stored under different names. |
| PyMessage.DetectFrom | message.py:62-72 | From pattern `p` on, the loop answers `otp` exactly when a keyword is present and some remaining pattern matches. It answers `sms` exactly when no keyword is present. |
| PyMessage.PatternsAreAnyMatch | message.py:50-55 | Trying the four patterns in turn finds a match exactly when some pattern matches somewhere. |
| PyMessage.DetectMessageType | message.py:45-73 | The lower-cased content is `otp` when it has a keyword and a pattern match, `verification` when it has a keyword and no match, and `sms` when it has no keyword. |
| PyMessage.DetectIgnoresCase | message.py:47 | Content and its lower-cased form get the same type. |
| PyMessage.DetectIsRegexReading | message.py:62-66 | `otp` holds exactly when a keyword is present and one of the four regular expressions matches, read as in the regular-expression language itself. |
| PyMessage.ExampleShortLabelledCode | message.py:52 | "code 12" is an `otp` message: a labelled code of any length counts. |
| PyMessage.MarkAsRead | message.py:40-43 | Marking sets the read flag and changes nothing else. |
| PyMessage.MarkAsReadIdempotent | message.py:40-43 | Marking twice is marking once, and a read message is left as it is. |
| PyMessage.CreateFromWebhook | message.py:75-90 | A new unread row is appended with the given id, number, sender, content, provider id and provider message id, the time of arrival, empty extra data, and the classifier's verdict on its content as its type. Earlier rows are unchanged. |
| PyMessage.CreatedTypeNeedsKeyword | message.py:69-73 | A message created from content without a keyword is stored as `sms`. |
| PyMessage.ReceivedKeyOrder | message.py:111 | Ascending order of the key is newest first. |
| PyMessage.SelectedNewestFirst | message.py:93-111 | The selection is a permutation of the rows on the user's numbers that pass the truthy filters, newest first, and holds every such row. |
| PyMessage.GetMessagesForUser | message.py:93-111 | A page is exactly the window at `offset` of length `limit` of the rows on the user's numbers that pass the filters, newest first. |
| PyMessage.WindowNewestFirst | message.py:112 | A window of a newest-first result is newest first, and holds only rows of that result. |
| PyMessage.NextHolderSeesOldMessages | message.py:97-98 | Because the join reads the number's current holder, a number released and assigned to someone else shows its earlier messages to the new holder. |
| PyMessage.CleanupOldMessages | message.py:114-124 | Exactly the rows received before `now - hours` are deleted, and the count reported is how many were removed. |
| PyMessagesRoute.EffectiveLimit | messages.py:22 | The limit is refused exactly when `int()` cannot read it. It defaults to 50 and is capped at 100, and a smaller given value is kept. |
| PyMessagesRoute.EffectiveOffset | messages.py:23 | The offset is refused exactly when `int()` cannot read it, and defaults to 0. |
| PyMessagesRoute.ParseIsRead | messages.py:25-27 | `is_read` is absent exactly when it was not given. A given value is true exactly when, lower-cased, it is `true`, `1` or `yes`. |
| PyMessagesRoute.IsReadSpellings | messages.py:27 | `TRUE`, `Yes` and `1` read as true, and `on` reads as false. |
| PyMessagesRoute.CheckedNumber | messages.py:42-52 | A missing or zero number id filters nothing. A truthy one is allowed exactly when the caller holds that number. |
| PyMessagesRoute.GetMessages | messages.py:10-91 | Success holds exactly when the limit and offset are readable, the date is valid, and any number asked for is held by the caller. An unreadable limit or offset answers 500 `FETCH_ERROR`, a bad date 400 `INVALID_DATE_FORMAT`, and a number the caller does not hold 403 `ACCESS_DENIED`. On success the page is `Listed`: exactly the window at the offset of length limit of the caller's matching rows, newest first. The clamped limit and offset are echoed, the total counts every match, and the first page holds every match when they fit. |
| PyMessagesRoute.ListedPage | messages.py:55-84 | The page built from the sorted selection meets `Listed`, and keeps the requested limit and offset. |
| PyMessagesRoute.PageFrom | messages.py:55-84 | For any newest-first result holding exactly the rows that pass a filter, the page is its window at the clamped offset and limit. The total counts the filter, and the window holds everything when it starts at the top and the total fits. |
| PyMessagesRoute.GetMessage | messages.py:93-120 | The message is returned exactly when it arrived on a number the caller holds, and otherwise the answer is 404 `MESSAGE_NOT_FOUND`. |
| PyMessagesRoute.MarkMessageRead | messages.py:122-155 | Marking succeeds exactly for a visible message, and only that row becomes read. Otherwise the answer is 404. |
| PyMessagesRoute.MarkMessageReadTwice | messages.py:122-155 | Marking the same message again changes nothing. |
| PyMessagesRoute.MarkAllRead | messages.py:157-206 | The update the handler means to run (see "## Findings"). A number the caller does not hold answers 403, exactly then. Otherwise exactly the caller's unread rows under the filters become read, the count reported is how many there were, and none is left. |
| PyMessagesRoute.MarkAllReadTwice | messages.py:157-206 | Of the intended update: a second mark-all with the same filters updates nothing. |
| PyMessagesRoute.MarkAllReadAsWritten | messages.py:157-206 | The handler as written: 403 `ACCESS_DENIED` exactly when the number is not the caller's, and 500 `UPDATE_ERROR` exactly otherwise, because the bulk update of a joined query raises. |
| PyMessagesRoute.MarkAllAsWrittenMarksNothing | messages.py:169-206 | For every permitted request the handler as written answers 500, while the intended update succeeds with the count of unread rows and changes the table whenever that count is positive. |
| PyMessagesRoute.MessageStats | messages.py:208-263 | Each counter counts the caller's messages of its kind: all, unread, `otp`, `verification`, `sms`, and received in the last 24 hours. Unread and recent are within the total, and the three per-type counts add up to it. |
| PyMessagesRoute.NumberBreakdown | messages.py:231-254 | `phone_number_stats`: one entry for each number of the caller that has messages, with its number, id and message count. The count is positive, every entry comes from a number the caller holds, every such number with messages is reported, and the length is the number of such numbers. |
| PyMessagesRoute.Entries | messages.py:247-253 | Each entry reports its number's text, id and message count, in order. |
| PyMessagesRoute.KindsAddUp | messages.py:217-224 | Every message has exactly one of the three types, so the per-type counts of the caller's messages add up to their count. |
| PyMessagesRoute.Search | messages.py:265-329 | Success holds exactly when the limit and offset are readable, the stripped query is non-blank, and any number asked for is held by the caller. An unreadable limit or offset answers 500 `SEARCH_ERROR`, a blank query 400 `MISSING_QUERY`, and a number not held 403. On success the page is `Found`: exactly the window at the offset of length limit of every hit, newest first. A hit is a row on the caller's numbers whose content contains the stripped text ignoring case. The limit and offset are echoed and the total counts every hit. |
| PyMessagesRoute.FoundPage | messages.py:287-322 | The page built from the sorted hits meets `Found`, and keeps the requested limit and offset. |
| PyMessagesRoute.Hits | messages.py:286-293 | The hits are a newest-first permutation of exactly the matching rows. |
| PyMessagesRoute.SearchIgnoresCase | messages.py:289 | The search matches the same rows for a text and its lower-cased form. |
| PyNumbersRoute.GetNumbers | numbers.py:10-47 | A `limit` or `offset` that `int()` cannot read answers 500 `FETCH_ERROR`, exactly then. Otherwise the listing is exactly the window, at the offset and of length `min(limit, 100)` (a negative one read as zero), of the rows in table order that pass the status filter (default `available`) and the upper-cased country filter. The total counts every such row, and the limit and offset are echoed as read. |
| PyNumbersRoute.ListLimit | numbers.py:17 | 20 when `limit` is absent, refused exactly when `int()` cannot read it, otherwise the value capped at 100. |
| PyNumbersRoute.ListOffset | numbers.py:18 | 0 when `offset` is absent, refused exactly when `int()` cannot read it, otherwise the value. |
| PyNumbersRoute.Min | numbers.py:17 | The minimum is one of the two values and at most both. |
| PyNumbersRoute.RowOf | numbers.py:77 | The row found for a requested id exists exactly when the id is positive and some row carries it. It is the first such row. |
| PyNumbersRoute.AssignPrecheck | numbers.py:55-91 | Each answer holds exactly under its condition, in the handler's order. A missing or zero id gives 400 `MISSING_FIELD`. Otherwise, a duration outside 1..24 (default 1) gives 400 `INVALID_DURATION`. Otherwise, no row with that id gives 404 `NUMBER_NOT_FOUND`. Otherwise, a row not `available` gives 409 `NUMBER_NOT_AVAILABLE`. Otherwise the check passes with that row and the duration. |
| PyNumbersRoute.AssignNumberAsWritten | numbers.py:92-111 | As written, a success assigns one row and keeps the table size. The conflict check looks only at the first assigned lease of the user. |
| PyNumbersRoute.AssignNumber | numbers.py:49-119 | With every active lease checked, assignment succeeds exactly when the prechecks pass and the caller has no active lease. It changes only the requested row, and otherwise answers 409 `ALREADY_ASSIGNED`. |
| PyNumbersRoute.AssignKeepsOneActive | numbers.py:92-106 | The corrected assignment keeps every user at one active lease at most. |
| PyNumbersRoute.OneActiveLater | phone_number.py:55-59 | Leases only run out as time passes, so one active lease per user remains true later. |
| PyNumbersRoute.TwoLeaseTable | numbers.py:92-106 | A three-row table where user 7 holds one expired and one active lease, and at most one lease per user is active. |
| PyNumbersRoute.AsWrittenAllowsSecondActiveLease | numbers.py:92-106 | As written, user 7 gets a second active lease, and the corrected check refuses with `ALREADY_ASSIGNED`. |
| PyNumbersRoute.GetNumber | numbers.py:121-151 | No row with the id gives 404 `NUMBER_NOT_FOUND`, exactly then. A row neither held by the caller nor `available` gives 403 `ACCESS_DENIED`, exactly then. In every other case the answer is 200 with that row. |
| PyNumbersRoute.ReleaseNumber | numbers.py:153-188 | No row gives 404 `NUMBER_NOT_FOUND`, exactly then. A row not held by the caller gives 403 `NOT_AUTHORIZED`, exactly then, whatever its status. Otherwise the answer is 200 with that row released and every other row as it was. |
| PyNumbersRoute.ReleaseFreesNumber | numbers.py:177 | After a release the number is available without holder, and every other row is unchanged. |
| PyNumbersRoute.GetMyNumbers | numbers.py:190-217 | Exactly the caller's lapsed leases are released first. The listing is exactly the rows, in table order, that the caller held and that had not lapsed. |
| PyNumbersRoute.SweepThenSelect | numbers.py:199-209 | Selecting the caller's rows after the sweep gives the same rows as selecting, before it, the rows the caller held that had not lapsed. |
| PyNumbersRoute.GetMyNumbersLeavesOthers | numbers.py:199-203 | The sweep leaves other users' rows unchanged. |
| PyNumbersRoute.ExtendPrecheck | numbers.py:225-259 | Each answer holds exactly under its condition, in the handler's order. A duration outside 1..24 (default 1) gives 400 `INVALID_DURATION`. Otherwise, no row gives 404 `NUMBER_NOT_FOUND`. Otherwise, a row not held by the caller gives 403 `NOT_AUTHORIZED`. Otherwise, a row not `assigned` gives 409 `NOT_ASSIGNED`. Otherwise the check passes with that row and the hours. |
| PyNumbersRoute.ExtendNumberAsWritten | numbers.py:262-271 | As written, the handler never succeeds: once the checks pass, the missing `timedelta` raises. |
| PyNumbersRoute.ExtendAsWrittenNeverSucceeds | numbers.py:262-286 | Every request that passes the checks answers 500 `EXTEND_ERROR`. |
| PyNumbersRoute.ExtendedExpiry | numbers.py:262-271 | The new expiry is the old one plus the hours while the lease lasts, and `now` plus the hours otherwise. |
| PyNumbersRoute.ExtendNumber | numbers.py:219-286 | With `timedelta` imported, extension succeeds exactly when the checks pass, and changes only that row's expiry. |
| PyNumbersRoute.ExtendedLeaseIsCurrent | numbers.py:262-271 | The new expiry is at least `now` plus the hours. It is never earlier than the old expiry plus the hours unless it was computed from `now`, and the lease stays current for the added hours. |
| PyPhoneNumber.AssignToUser | phone_number.py:39-45 | Assignment sets holder, status `assigned`, assignment time `now` and expiry `now + hours`, and changes nothing else. |
| PyPhoneNumber.Release | phone_number.py:47-53 | A released row is available with holder, assignment time and expiry cleared. Id, number, country, provider and creation time are kept. |
| PyPhoneNumber.ReleaseIdempotent | phone_number.py:47-53 | Releasing a released row changes nothing. |
| PyPhoneNumber.AssignedLeaseLasts | phone_number.py:55-59 | A fresh assignment is current up to and including its expiry instant, and a released row is never expired. |
| PyPhoneNumber.GetAvailableNumbers | phone_number.py:61-67 | The result is exactly the window at `offset` of length `limit` of the available rows, in table order, of the given country when one is given. |
| PyPhoneNumber.CleanupExpired | phone_number.py:69-80 | Exactly the overdue rows are released and the others are unchanged. The count reported is how many there were, and none is left overdue. |
| PyPhoneNumber.OverdueIsExpired | phone_number.py:72-75 | The clean-up's condition is exactly "assigned and `is_expired`". |
| PyPhoneNumber.CleanupExpiredTwice | phone_number.py:69-80 | A second clean-up at the same instant changes nothing and reports zero. |
| PyPhoneNumber.Get | numbers.py:77 | `query.get(id)` finds the row with that primary key, and finds none exactly when no row has it. |
| SmsProvider.ActiveProviders | sms_provider.py:37-40 | The list is a permutation of exactly the active providers, in ascending priority. |
| SmsProvider.PrimaryProvider | sms_provider.py:42-45 | A primary provider exists exactly when some provider is active, and it is an active row of the table. |
| SmsProvider.PrimaryHasLeastPriority | sms_provider.py:42-45 | The primary provider's priority number is no larger than that of any active provider. |
| SmsProvider.Deactivate | sms_provider.py:47-50 | Deactivation switches the provider off and changes nothing else. |
| SmsProvider.Activate | sms_provider.py:52-55 | Activation switches the provider on and changes nothing else. |
| SmsProvider.ActivateUndoesDeactivate | sms_provider.py:47-55 | Switching an active provider off and on again restores it. |
| SmsProvider.DeactivateRow | sms_provider.py:47-50 | Deactivating by id switches off exactly the rows with that id. |
| SmsProvider.DeactivatedLeavesActiveList | sms_provider.py:37-50 | A deactivated provider drops out of the active list, and every other active provider stays in it. |
| PyWebhooks.DialChars | webhooks.py:34-36 | Only digits and plus signs remain, and the text never grows. |
| PyWebhooks.DialCharsKeepDigits | webhooks.py:34-36 | Dropping every other character keeps every digit, in order. |
| PyWebhooks.Normalize | webhooks.py:32-41 | The result is the input's digits and plus signs in order, every plus sign kept. A '+' is put in front exactly when that sequence does not already start with one, so an empty input gives "+". The result holds exactly the input's digits. |
| PyWebhooks.NormalizeIdempotent | webhooks.py:32-41 | Normalising a normalised number changes nothing. |
| PyWebhooks.NormalizeEmpty | webhooks.py:38-39 | An empty number normalises to a lone '+'. |
| PyWebhooks.FirstMissing | webhooks.py:16-30 | The field reported is the first listed field missing from the data. None is reported exactly when all are present. |
| PyWebhooks.ValidateFields | webhooks.py:16-30 | Validation passes exactly when every required field is present. Otherwise the message names a missing field. |
| PyWebhooks.FirstPresent | webhooks.py:67-70 | The nested `get` calls yield the value of the first key present, and nothing exactly when none is. |
| PyWebhooks.FieldNames | webhooks.py:53-70 | Twilio reads `From`, `To`, `Body` and `MessageSid`, and Nexmo reads `msisdn`, `to`, `text` and `messageId`, whatever the letter case of the provider name. Any other provider reads the generic names with their fallbacks. |
| PyWebhooks.Extract | webhooks.py:53-70 | Sender and recipient are the normalised values of the first present field, or of '' when none is. Content and message id are taken as given, or '' when missing. |
| PyWebhooks.GenericContentFallback | webhooks.py:69 | In the generic format, `text` is used when `message` is absent. |
| PyWebhooks.MissingDataMeansEmptyContent | webhooks.py:72-73 | Because normalised numbers are never empty, the completeness check fails exactly when the content is empty. |
| PyWebhooks.ConfiguredProvider | webhooks.py:46-50 | The provider row found is an active row with that name, and none is found exactly when no such row exists. |
| PyWebhooks.NumberRow | webhooks.py:75-80 | The row found has that number, and none is found exactly when no row has it. |
| PyWebhooks.ProcessSms | webhooks.py:43-114 | An unconfigured provider and empty content are refused with their messages. A message is stored exactly when the provider is configured, the content is non-empty and the recipient number exists. It is then appended unread at `now`, with the extracted sender and content, the number's id, the provider's id, the provider's message id and the classifier's type. |
| PyWebhooks.ValidateFor | webhooks.py:138-147 | Twilio and Nexmo data are checked for their required fields. Any other provider needs a non-empty body. |
| PyWebhooks.ReceiveSms | webhooks.py:116-172 | A missing provider answers 400. Data that fail the provider's validation answer 400 with "Invalid webhook data: " and the validator's message. Valid data that processing refuses answer 500 with the refusal's reason. The route answers 200 exactly when the data validates and is stored, with empty TwiML for Twilio and "OK" otherwise. Every non-200 answer leaves the table unchanged, and the only statuses are 200, 400 and 500. |
| PyWebhooks.EmptyTwilioBodyIsRefused | webhooks.py:72-73 | A Twilio post whose `Body` is present but empty passes validation and is then refused with 500, storing nothing. |
| PyWebhooks.TwilioEmptyContent | webhooks.py:56 | An empty `Body` gives empty content. |
| PyWebhooks.ReceiveDelivery | webhooks.py:174-203 | A delivery report never changes the table, and is accepted exactly when a provider is named. |
| PyWebhooks.TestWebhook | webhooks.py:205-245 | The test route answers 200 exactly when the number (default +1234567890) exists, and otherwise 404 without storing. On success one message is appended on that number without provider, with the default sender and text when none are given. |
| SocketManager.PersonalRoom | socket_manager.py:70 | A personal room is `user_` followed by the decimal id. |
| SocketManager.PhoneRoom | socket_manager.py:132 | A phone room is `phone_` followed by the id as printed, and is never a personal room. |
| SocketManager.SameUserSameEntry | socket_manager.py:63 | A dictionary has one entry per user. |
| SocketManager.Lookup | socket_manager.py:63 | The lookup finds an entry exactly when the user is a key, and that entry is the user's. |
| SocketManager.Put | socket_manager.py:63-67 | Storing an entry keeps one entry per user, adds the user to the keys, holds the new entry, and keeps every other user's entry. |
| SocketManager.Delete | socket_manager.py:114 | Deleting a key removes exactly that user's entry and that key. |
| SocketManager.DistinctUsersCount | socket_manager.py:282-284 | With one entry per user, the number of entries is the number of users. |
| SocketManager.UserOfSocket | socket_manager.py:190-195 | The user found is the first in dictionary order whose socket is `sid`, and none is found exactly when no entry has that socket. |
| SocketManager.Tracked | socket_manager.py:136-137 | A handler sees a user for the socket exactly when the lookup finds one with a truthy id. |
| SocketManager.RemoveFirst | socket_manager.py:171-172 | `list.remove` drops exactly the first occurrence of the room and keeps the rest in order. |
| SocketManager.IndexOf | socket_manager.py:171-172 | The position found holds the room, and no earlier position does. |
| SocketManager.EmptyIsConsistent | socket_manager.py:15-16 | A freshly started server's registry is consistent: one entry per user, the same keys in both dictionaries, and every connection's rooms recorded in `user_rooms`. |
| SocketManager.Connect | socket_manager.py:39-91 | A missing, empty or undecodable token refuses the connection and changes nothing. Otherwise the user's entry is replaced by a fresh one holding only the personal room. The personal room is appended to the recorded rooms, and every other user's entry is kept. |
| SocketManager.WithRooms | socket_manager.py:142 | Giving a connection new rooms keeps the keys and every other entry. |
| SocketManager.Join | socket_manager.py:123-153 | A missing or falsy id answers "Phone number ID required" and changes nothing. Otherwise the reply names the phone room. For a tracked user the room ends up recorded: an already recorded room changes nothing, and a new one is appended to both lists. An untracked socket changes nothing. |
| SocketManager.Leave | socket_manager.py:155-183 | A missing id answers the error and changes nothing, and an untracked socket changes nothing. For a tracked user whose recorded rooms lack the room, the answer is `left_room` with the registry unchanged. Otherwise the user's recorded rooms become exactly that list without the room's first occurrence, and no other user changes. The handler answers "Failed to leave room" exactly when the room is recorded but not on the connection, and that error keeps the connections unchanged. |
| SocketManager.LeaveTracked | socket_manager.py:168-183 | The tracked part of the leave handler, with the same guarantees as above: an unrecorded room changes nothing, and a recorded one is removed at its first occurrence. |
| SocketManager.Disconnect | socket_manager.py:93-121 | An untracked socket changes nothing. Otherwise exactly the user's entry and recorded rooms are removed. |
| SocketManager.ConnectedCount | socket_manager.py:282-284 | The count is the number of connected users. |
| SocketManager.IsUserConnected | socket_manager.py:290-292 | A user is connected exactly when they have an entry. |
| SocketManager.ConnectionInfo | socket_manager.py:286-288 | The info is the user's entry, present exactly when the user is connected. |
| SocketManager.NotifyTargets | socket_manager.py:218-228 | A notification goes to the user's room and the phone's room, each exactly when its id is truthy, the personal room first, each once, and nowhere else. |
| SocketManager.NotificationTargets | socket_manager.py:197-264 | A new-message notification (room key `phone_number_id`) or a number-status notification (room key `id`) goes to `user_<user_id>` and `phone_<room key>`, each when present. The personal room comes first, each room is sent once, and nothing else is a target. |
| SocketManager.ConnectKeepsConsistent | socket_manager.py:39-91 | Connecting keeps the registry consistent. |
| SocketManager.RoomsUpdateConsistent | socket_manager.py:139-142 | New room lists that stay within the recorded rooms keep the registry consistent. |
| SocketManager.RecordedRoomDropped | socket_manager.py:171 | Dropping a recorded room that the connection does not hold keeps the registry consistent. |
| SocketManager.JoinKeepsConsistent | socket_manager.py:123-153 | Joining keeps the registry consistent. |
| SocketManager.LeaveKeepsConsistent | socket_manager.py:155-183 | Leaving keeps the registry consistent, the failing path included. |
| SocketManager.LeaveTrackedKeepsConsistent | socket_manager.py:168-183 | The tracked part of leaving keeps the registry consistent, whether the room is on the connection or not. |
| SocketManager.DisconnectKeepsConsistent | socket_manager.py:93-121 | Disconnecting keeps the registry consistent. |
| SocketManager.ReconnectDuplicatesPersonalRoom | socket_manager.py:72-75 | Connecting the same user twice records the personal room twice, while the connection holds it once. |
| SocketManager.JoinIdempotent | socket_manager.py:138-142 | Joining a room a second time changes nothing. |
| SocketManager.TrackedAfterJoin | socket_manager.py:123-153 | A join does not change which user a socket belongs to. |
| SocketManager.SocketsUnchanged | socket_manager.py:142 | Changing a connection's rooms keeps every socket with its user. |
| SocketManager.ConnectedUserIsNotified | socket_manager.py:69-75 | A connected user's personal room is recorded, and notifications addressed to that user go to it. |
| SocketManager.JoinedRoomIsNotified | socket_manager.py:132-142 | The room a tracked user joins is recorded, and notifications about that phone go to it. |
| SocketManager.ReconnectThenLeaveFails | socket_manager.py:164-183 | After a reconnect on a new socket, leaving a room joined before answers "Failed to leave room". |
| SocketManager.ReconnectedSocketIsTracked | socket_manager.py:190-195 | The only entry with a fresh socket is the one just recorded, so the socket maps to that user. |
| SocketManager.LeaveAfterReconnectFails | socket_manager.py:61-75 | Connect, join, reconnect on a new socket, then leave: as written the leave answers the error, and the corrected handler answers `left_room`. |
| SocketManager.LeaveFixed | socket_manager.py:155-183 | With the connection's own list checked before removal, a present id always answers `left_room`, and a missing one answers the error. |
| SocketManager.LeaveFixedAgrees | socket_manager.py:164-172 | The corrected handler leaves the same registry as written and keeps it consistent. Where the original succeeds, both agree completely. |
| UiHelpers.HoursAndMinutes | PhoneNumbers.jsx:103-104 | The left-over minutes stay below 60, and the whole hours and those minutes together make up the whole minutes of the time left. |
| UiHelpers.Countdown | PhoneNumbers.jsx:103-109 | Read back, the text of a positive time left shows `diff / 1h` hours and the remaining whole minutes, always under 60. Together they make the whole minutes left. It shows an hour mark exactly when at least an hour is left. |
| UiHelpers.CountdownReadsBack | PhoneNumbers.jsx:103-109 | The countdown text ends in `m` and reads back as the whole hours and the remaining minutes, together the minutes left. It has an `h` iff an hour or more is left. |
| UiHelpers.HoursLayout | PhoneNumbers.jsx:106-107 | `{h}h {m}m` reads back as `h` hours and `m` minutes and carries an hour mark. |
| UiHelpers.MinutesLayout | PhoneNumbers.jsx:109 | `{m}m` reads back as no hours and `m` minutes and carries no hour mark. |
| UiHelpers.FormatTimeRemaining | PhoneNumbers.jsx:94-110 | `No expiry` iff there is no expiry, and `Expired` iff the expiry is not after now. Otherwise the text shows the whole hours left and the remaining minutes (under 60), which make up the whole minutes left, with an hour mark iff an hour or more is left. |
| UiHelpers.StatusColor | PhoneNumbers.jsx:112-119 | `destructive` iff the status is `expired` or the expiry has passed. Otherwise `default` iff assigned, `secondary` iff available, and `outline` for any other status. |
| UiHelpers.BadgeAgreesWithCountdown | PhoneNumbers.jsx:94-119 | For any status other than `expired`, the badge is destructive exactly when the countdown reads `Expired`. |
| UiHelpers.AgeOf | Messages.jsx:127-137 | The buckets split ages at a minute, an hour and a day. The minutes or hours shown are the whole units of the age, from 1 to 59 or 1 to 23. |
| UiHelpers.AgeMonotone | Messages.jsx:132-134 | An older message never shows a younger relative time. |
| UiHelpers.ParseAgo | Messages.jsx:133-134 | `{n}m ago` and `{n}h ago` end in ` ago` after the unit and give back n. |
| UiHelpers.ParseAgeLabel | Messages.jsx:132-134 | Every relative-time text reads back as its own bucket, so different ages within a day show different texts. |
| UiHelpers.FormatTime | Messages.jsx:127-137 | Under a day, the text reads back as the bucket of the age. From a day on, it is the dated locale text. |
| UiHelpers.Greeting | Dashboard.jsx:82-87 | Morning before noon, afternoon from 12 to 17, and evening from 18 on. |
| UiHelpers.MessageTypeColor | Messages.jsx:150-159 | Green iff `otp`, blue iff `verification`, grey for every other type. |
| UiHelpers.TypeColorsOfStoredKinds | Messages.jsx:150-159 | The three stored types get three different colours, and only plain `sms` is grey. |
| UiHelpers.ExtractOtp | Messages.jsx:161-164 | A code is shown iff the content has a standalone run of 4 to 8 digits. The code shown is the leftmost such run. |
| UiHelpers.CodeShownWithoutKeyword | Messages.jsx:161-164 | A standalone 4 to 8 digit code in content with no keyword is shown as a code, while the back end stores the message as `sms`. |
| UiHelpers.ExampleGateCode | Messages.jsx:161-164 | "Gate 1234" shows the code 1234 on a message the back end classifies as `sms`. |
| UiHelpers.MarkAsRead | Messages.jsx:95-106 | The messages with the id become read, every other message is untouched, and the list keeps its length. |
| UiHelpers.MarkAsReadUnread | Messages.jsx:98-100 | The unread count drops by exactly the unread messages that had the id. |
| UiHelpers.MarkAllAsRead | Messages.jsx:107-122 | Every listed message becomes read with nothing else changed, leaving no unread message. |
| UiHelpers.MarkAllAbsorbsMarkOne | Messages.jsx:95-122 | Marking one message before marking all gives the same list as marking all. |
| UiHelpers.FetchParams | Messages.jsx:40-44 | Each parameter is present iff its filter is set: number, type, and read state unless `all`. `is_read` is true iff the filter is `read`. |
| UiHelpers.MarkAllParams | Messages.jsx:109-111 | Marking all never sends a read filter. |
| UiHelpers.MarkAllParamsOmitReadFilter | Messages.jsx:40-44 | The mark-all parameters are the list's parameters with `is_read` removed, whatever the read filter. |
| UiHelpers.Countries | Dashboard.jsx:163 | A code is counted iff some listed number has it. There are no more codes than numbers, and at least one when any number is listed. |
| UiHelpers.CountryCount | Dashboard.jsx:163 | The country figure never exceeds the number count and is zero only with no numbers. |
| UiHelpers.DistinctCountriesCounted | Dashboard.jsx:163 | Numbers from pairwise different countries count one country each. |
| UiHelpers.OneCountryCountedOnce | Dashboard.jsx:163 | Any non-empty list of numbers from one country counts one country. |
| UiHelpers.Preview | Dashboard.jsx:220 | The preview is the list's prefix of at most three numbers, and holds all of them when there are three or fewer. |
| UiHelpers.MoreNote | Dashboard.jsx:239-243 | A note shows iff more than three numbers are held, and it reads `+n more numbers` with n the hidden count. |
| UiHelpers.PreviewAccountsForAll | Dashboard.jsx:220-243 | The numbers previewed plus the count in the note equal the numbers held. |
| Auth.EmailScanIsPattern | auth.py:9-12 | Checking only the first `@` and the last dot accepts exactly the addresses the anchored pattern accepts. |
| Auth.ValidateEmail | auth.py:9-12 | An address passes iff it matches the pattern, or matches it once a single final newline is dropped. The final-newline case is how `$` behaves under `re.match`. |
| Auth.Normalize | auth.py:46 | The stored address is never longer than the input and never ends in white space. |
| Auth.NormalizedEmailNeedsPattern | auth.py:46-52 | For a normalized address the final-newline allowance never applies, so the pattern alone decides. |
| Auth.EmailExamples | auth.py:11 | `a@b.c.de` passes, and `a@b.c`, whose final label has one letter, fails. |
| Auth.ValidatePassword | auth.py:14-28 | Valid iff at least 8 characters with an upper-case letter, a lower-case letter and a digit. Otherwise the message names the first broken rule, in the order length, upper, lower, digit. |
| Auth.FindByEmail | auth.py:69 | The first row holding the address, and none iff no row holds it. |
| Auth.FindById | auth.py:166 | The first row with the id, and none iff no row has it. |
| Auth.FindByIdInConsistent | auth.py:166 | With unique ids, looking up a row's id finds that very row. |
| Auth.TokensLastOneHour | auth.py:148-183 | The token issued by a login and the one issued by a refresh both report `expires_in` of one hour. |
| Auth.RegisterName | auth.py:48-49 | A missing name stays unset and a blank one is dropped. A kept name is the stripped, non-empty text, and a non-string name fails. |
| Auth.Register | auth.py:31-96 | 400 `MISSING_FIELD` iff the address or password is absent or empty. A created user has the normalized address, which matches the pattern and is new to the table, plus a strong password stored hashed, is active and unverified, and is appended with status 201. In the handler's order, once the earlier checks pass: 400 `INVALID_EMAIL` iff the normalized address misses the pattern, 400 `WEAK_PASSWORD` iff the password is a string that is not strong, and 409 `EMAIL_EXISTS` iff the address is taken. 500 `REGISTRATION_ERROR` iff there is no body, a non-string address or name, or a non-string password. Creation happens iff every check passes. |
| Auth.RegisterKeepsConsistent | auth.py:69-89 | With a fresh id, registration keeps ids and addresses unique. |
| Auth.Login | auth.py:99-157 | A missing body answers 500 `LOGIN_ERROR`. 400 `MISSING_CREDENTIALS` holds exactly when a credential is absent or empty. With two string credentials, the answer is determined three ways. 401 `INVALID_CREDENTIALS` holds exactly when the normalised address is unknown or the password check fails. 401 `ACCOUNT_DEACTIVATED` holds exactly when it matches an inactive account. Success holds exactly when it matches an active one. Success records the login time on that row alone and reports `expires_in` 3600. |
| Auth.LoginHidesUnknownAccounts | auth.py:114-122 | An unknown address and a wrong password for a known one get the same answer. |
| Auth.RegisterThenLogin | auth.py:31-157 | A successful registration body logs in to the new account. |
| Auth.Refresh | auth.py:161-191 | A new token iff the user exists and is active. Otherwise 401 `INVALID_REFRESH_TOKEN`. |
| Auth.LoginThenRefresh | auth.py:99-191 | In a table with unique ids, the user of a successful login can refresh. |
| Auth.GetProfile | auth.py:205-227 | The caller's own row iff the id exists. Otherwise 404 `USER_NOT_FOUND`. |
| Auth.ProfileName | auth.py:247-251 | A falsy value clears the name, and a string is stored stripped. Any other truthy value fails. |
| Auth.UpdateProfile | auth.py:231-287 | 404 for an unknown id. The update succeeds exactly when the body is present, both names are usable, and any address given is a string that normalizes to a valid address no other user holds. A success changes only the caller's row and keeps its id, password, active flag and last login. Names follow the body, and a new address clears the verification flag. `EMAIL_TAKEN` iff another row holds the new valid address. |
| Auth.EmailTakenByAnotherRow | auth.py:262-270 | In a consistent table, a valid new address is refused iff some other user's row holds it. |
| Auth.ReplaceKeepsConsistent | auth.py:272-275 | Replacing a row by one with the same id and an address no other row holds keeps the table consistent. |
| Auth.UpdateProfileKeepsConsistent | auth.py:231-287 | A successful profile update keeps ids and addresses unique. |
| Auth.SameEmailResetsVerification | auth.py:254-273 | Re-submitting one's own stored address is accepted and still clears the verification flag. |
| Paging.Skip | numbers.js:225 | Page 1 skips nothing, and each page starts one page length after the last one. |
| Paging.Pages | numbers.js:257 | The smallest page count that covers the total: the pages hold every result and the last page is not empty. No pages iff no results. |
| Paging.PageOfPosition | messages.js:59 | Every result position lies on exactly one page in the reported range. |
| Paging.PagesBound | messages.js:116 | A page starts inside the results iff its number is at most the reported page count. |
| Paging.Window | Message.js:231 | The window holds the results that follow the offset, in order, up to the limit, and is empty past the end. |
| Paging.WindowOfUnique | Message.js:230-232 | `WindowOf` pins the page down: the only sequence meeting it is the window itself. |
| Paging.WindowSubset | message.py:112 | Every element of a window comes from the underlying result. |

`Dashboard.jsx:64-80` repeats `formatTimeRemaining` word for word, so `UiHelpers.FormatTimeRemaining`
stands for both pages. `Dashboard.jsx:52-62` is `formatTime` with a date-only rendering past a day,
which is the `dated` parameter of `UiHelpers.FormatTime`.

## Left out

- Database I/O, transactions and concurrency: each route is one atomic step on the stores. The code has no compare-and-set, so two concurrent assigns could take the same number; the model does not show that interleaving.
- Password hashing, the HMAC signatures, base64 and hex encoding, and JWT encoding and decoding are parameters. Only the decisions taken on their results are modelled.
- Clocks, ids and random values are parameters (`now`, `newId`). Locale date rendering (`toLocaleDateString`, `toLocaleTimeString`) is the opaque `dated` text, and an invalid `Date` (NaN arithmetic) is not modelled.
- Socket.IO emits, room broadcasts and the `ping` handler are left out. The registry model returns the event a handler would emit, and `notify_*` returns the rooms it targets.
- `socketHandler.js`, `server.js`, `main.py`, `database.js`, `api.js` and the React pages' rendering are wiring and markup outside the decision logic.
- The user models `User.js` and `user.py` are not part of this model. A user is reduced to the fields the routes read.
- `auth.py` logout answers a constant message, and the refresh route's generic `REFRESH_ERROR` catch is left out.
- Auth.Register: `User.create_user` is assumed to set `is_active` true and `email_verified` false, since the user model is not part of this model.
- Auth.UpdateProfile: a name change made before a failed address check is dropped together with the failed request. Nothing is committed on the failure paths.
- Case folding is ASCII only. Python's `str.lower`, JavaScript's `toLowerCase`/`toUpperCase`, and the `$options: 'i'` of the database's `$regex` all fold every Unicode letter, so a non-ASCII letter compares differently in the model. Python's `\d` also matches every Unicode digit, and the model counts only ASCII digits. Trimming uses each language's full white-space set.
- JSON values that are neither strings nor `null` take part only through their truthiness. For example, a list as a password, whose `len` Python would measure, fails the same way a number does.
- Joi error details (the messages and field paths) are left out. Only the `VALIDATION_ERROR` code and the converted values are modelled.
- A numeric query parameter is read as `parseInt` reads decimal text. The `0x` prefix and a non-numeric `limit` on the search routes are not modelled separately.
- A path or body id must be exactly 24 hexadecimal characters to cast. The 12-byte string form the driver also accepts is left out.
- The `$regex` search patterns are read as case-insensitive substring tests. Regular-expression metacharacters in a query are not interpreted.
- JsUsersRoute.ListUsers: `page` and `limit` are the integers `parseInt` gives. A non-numeric text, which gives NaN, is not represented. The driver's refusal of a negative skip is the 500 carrying the code `driverCode`, which the model takes as a parameter.
- PyMessagesRoute.Clamp: a negative `limit` or `offset` reads as zero. What the database makes of a negative `LIMIT`/`OFFSET` is not modelled.
- PyNumbersRoute.GetNumbers: a negative `limit` or `offset` reaches `limit()`/`offset()` unchanged. The model selects as if it were zero and echoes the value as read. What the database makes of a negative `LIMIT`/`OFFSET` is not modelled.
- `users.js` `GET /profile`, `GET /dashboard`, admin `GET /:id` and `GET /stats/overview` only read and aggregate records for display, and are left out.
- `numbers.js` `POST /cleanup` only calls `JsPhoneNumber.CleanupExpired` and reports its count. The route itself is left out.
- `webhooks.js` `GET /test` and `webhooks.py` `GET /webhooks/status` answer constant status texts and are left out. In the test message, the `providerMessageId` uses the decimal time, not `Date.now()`'s exact text.
- Payload ids in socket events are natural numbers or missing. Negative and fractional ids are left out.
- `getMessageTypeIcon` in `Messages.jsx` returns markup. The dashboard badge variant (`default` for an assigned number, `secondary` otherwise) is presentation and is left out.
- PyMessage.DetectMessageType: Python's `re` treats `\b`, `\w` and `\d` as Unicode classes. The model counts only ASCII letters, digits and `_` as word characters and only ASCII digits as digits, so a code next to a non-ASCII letter or written in other digits is classified differently.
- PyWebhooks.Normalize: `str.isdigit` keeps every Unicode digit, superscripts included. The model keeps ASCII digits only.
- PyMessagesRoute.Search: `ilike('%text%')` reads `%` and `_` in the query as wildcards. The model matches the query as a literal substring.
- PyMessagesRoute.Hits: the same literal-substring reading of `ilike` as in `PyMessagesRoute.Search`.
- JsNumbersRoute.ValidateAssign: the duration is whole hours. Joi's `number()` also accepts a fractional duration such as 1.5, and fractional hours are not represented.
- JsNumbersRoute.Extend: the same whole-hour duration as `JsNumbersRoute.ValidateAssign`.
- JsNumbersRoute.CreateNumber: `providerId`, `cost`, `currency` and `capabilities` are validated but not stored, because the modelled lease has no such fields. The cost is a whole number, so a fractional cost is not represented. A value of the wrong JSON type for these four keys is not represented either.
- JsMessagesRoute.TypeDistribution: `$sort` by count leaves the order of equal counts to the database. The model fixes one order and states only that counts do not increase.
- JsMessagesRoute.RecentActivity: a group key is the UTC day number counted from the epoch, not the `YYYY-MM-DD` text of `$dateToString`. The two sort in the same order for years 1970 to 9999.
- PyMessagesRoute.MarkAllReadTwice: it is a property of the intended update `MarkAllRead`. As written every permitted mark-all answers 500 (see "## Findings"), so the handler never reaches a second update.
- PyMessagesRoute.NumberBreakdown: SQL leaves the order of `group_by` rows open. The model lists them in table order, and the contract does not fix the order.
- PyNumbersRoute.AssignPrecheck: `duration_hours` is an integer. A JSON float that passes the range check is not represented.
- PyNumbersRoute.ExtendPrecheck: `additional_hours` is an integer, with the same omission of JSON floats.
- JsPhoneNumber.Release: the optional `providerId` and the cost, currency and capability fields of a number are not part of `Lease`. Release never writes them, so their being kept is not stated.
- Other text lengths are counted in characters. Only the message schema's `maxlength` and the search query's two-character minimum use UTF-16 code units, through `Text.Utf16Length`.
- The response bodies' display fields (`to_dict`, `toJSON`, success messages) are left out. Replies carry the status, the error code and the changed records.

## Findings

| source | as written | input that shows it | evidently intended | confidence | as-written member | corrected member |
|---|---|---|---|---|---|---|
| numbers.py:262-271 | `extend_number` computes the new expiry with `timedelta`, which the module does not import, so the `NameError` lands in the generic handler. | Any extend request that passes the ownership, duration and status checks. | The lease gets `max(expires_at, now) + additional_hours`, or `now + additional_hours` without an expiry. | high; not executed | PyNumbersRoute.ExtendAsWrittenNeverSucceeds | PyNumbersRoute.ExtendedLeaseIsCurrent |
| numbers.py:92-106 | The `ALREADY_ASSIGNED` guard fetches only the first assigned lease of the user and tests whether that one has expired. | User 7 holds an expired lease first and a live lease second, and asks for the available number 3 at time 10 (`TwoLeaseTable`). | Refuse when any assigned lease of the user is still live, so that a user holds at most one active lease. | high; not executed | PyNumbersRoute.AsWrittenAllowsSecondActiveLease | PyNumbersRoute.AssignKeepsOneActive |
| webhooks.js:380-390 | The test message is created with provider `test`, which the message schema's provider enum does not list, so every save fails validation. | A development request with `phoneNumber`, `fromNumber` and `content` for an assigned number. | The message is stored and filed under the number's holder. | high; not executed | JsWebhooks.TestMessageAlwaysRefused | JsWebhooks.TestMessageFixedStores |
| messages.js:135-170 | `GET /:id` is declared before `GET /stats` and `GET /search`, so both paths reach the single-message handler, fail the id cast and answer 404. | `GET /stats` or `GET /search?q=code`. | Each fixed path reaches its own handler. | high; not executed | JsMessagesRoute.StatsAndSearchShadowed | JsMessagesRoute.IntendedStatsAndSearch |
| socket_manager.py:164-183 | A reconnect replaces the connection record and its room list, while `user_rooms` keeps the phone rooms. Leaving such a room then finds it in `user_rooms` but not in the new list, so the second `remove` raises. | Connect, join `phone_5`, connect again on a new socket, leave `phone_5`. | The room is left and `left_room` is answered. | high; not executed | SocketManager.ReconnectThenLeaveFails | SocketManager.LeaveFixedAgrees |
| messages.py:169-193 | `mark_all_messages_read` builds its query with `join(PhoneNumber)` and then calls the bulk `query.update({'is_read': True})`. SQLAlchemy's `Query.update()` refuses a query on which `join()` was called and raises, so the `except` answers 500 `UPDATE_ERROR` and nothing is marked. | Any mark-all request whose `phone_number_id` is absent or held by the caller. | The caller's unread messages under the filters become read, and their number is reported. | medium; not executed | PyMessagesRoute.MarkAllAsWrittenMarksNothing | PyMessagesRoute.MarkAllRead |
