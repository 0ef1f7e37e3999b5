# Transmitter System: issue lifecycle and assignment notifications

The Transmitter System is a back office for a broadcaster's support staff.
Staff report three kinds of issue:

- CAS issues, about the conditional-access system;
- channel issues;
- frequency issues.

Each issue is assigned to colleagues and moved through a fixed set of
statuses. Whenever somebody is newly assigned, the system stores one
notification per assignee. Each assignee later reads their notifications and
marks them as read. A user directory holds the staff: their roles, login
credentials and profile fields. A small middleware resolves the caller from a
`user-id` header and gates routes by role.

This project models that core in Dafny and proves what each handler promises.

- **Storage.** Every table is an in-memory store: a map from id to record,
  plus a counter that issues auto-increment ids.
- **Handlers.** Every handler is split in two:
  - a pure *plan* function, which decides the rejection or the write;
  - a method on the store class, which applies the plan and then runs the
    notification fan-out.
- **Proofs.** Lemmas about the plan functions state:
  - the check order;
  - which fields a request may change;
  - the newly-assigned delta;
  - that one assignment event becomes one record per assignee.
- **Invariants.** The store methods keep each table's invariant. The
  invariant covers ids, the column constraints, the unique user keys, and
  timestamps that grow with the id; the last is what makes "newest first"
  the same as "largest id first".

The modules follow the program's structure:

- `Js`: JavaScript truthiness, `||`, `trim`, and "undefined / null / value"
  request fields.
- `Decimal`: integer text and `parseInt`.
- `JsonText`: `JSON.stringify` and `JSON.parse` on the values an assignee
  column can hold.
- `Http`: rejection reasons and their status codes.
- `Tables`: filtered, newest-first queries over a table.
- One model module and one controller module per source file.
  - The channel and frequency tables share one model and one controller,
    parameterised by a `Domain`. Their source files differ in the name
    of the key column, in the notification tag they pass (`channel_issue`
    or `frequency_issue`, which selects the message wording) and in the
    constant lists of their metadata endpoints.

Parameters stand in for the environment:

- The clock is a `now` argument. It never runs backwards (`now >= clock`).
- `JSON.parse` of form-data strings is a partial function `jsonParse`.
- The email-format validator is a predicate `isEmail`.
- A storage failure in the middle of a notification fan-out is an optional
  index `failAt`.
- The caller (`req.user?.id`) is `sessionUser`.

## Model

| member | source | states |
|---|---|---|
| UserModel.RolesAreLowerCase | src/models/User.js:5-9 | every role of the vocabulary is already lower case, so normalising never changes a valid role |
| UserModel.StoreKeepsUnique | src/models/User.js:17-31 | a write that clashes with no other user's email or employee id keeps both keys unique across the table |
| UserModel.RemoveKeepsUnique | src/models/User.js:17-31 | removing a user keeps the unique keys |
| UserModel.SameKeysNoConflict | src/models/User.js:17-31 | rewriting a user without touching email or employee id clashes with nobody |
| UserModel.LowerIdempotent | src/controllers/userController.js:312 | lower-casing a role twice is lower-casing it once |
| UserModel.LowerIgnoresCase | src/controllers/userController.js:312 | two role spellings equal up to ASCII case normalise to the same role |
| UserController.CreateNeedsPassword | src/controllers/userController.js:115-117 | registration with a falsy password is refused with "Password is required", whatever else the request holds |
| UserController.CreatedUserShape | src/controllers/userController.js:122-133 | a registered user has the lower-cased role, or `admin` when none was given, is active, has no last login, keeps the supplied fields and meets the role vocabulary and unique keys |
| UserController.CreateAcceptsAnyCase | src/controllers/userController.js:131 | "Technical" registers `technical`, "ADMIN" registers `admin`, and an empty role falls back to `admin` |
| UserController.LoginCheckOrder | src/controllers/userController.js:163-182 | login refuses a request without email or employee id first, then one without password, then a lookup that finds nobody (401) |
| UserController.SameCredentialsSameUser | src/controllers/userController.js:173-177 | under unique keys, two users matching the same supplied identifiers are the same user |
| UserController.LookupIsUnique | src/controllers/userController.js:173-177 | every row the login lookup returns is the same user, so the row `findOne` picks does not matter |
| UserController.LoginIsSound | src/controllers/userController.js:180-202 | a login succeeds only for an active user matching every supplied identifier whose stored password equals the supplied one |
| UserController.LoginIsComplete | src/controllers/userController.js:180-202 | an active user presenting a matching identifier and the right password logs in as themself |
| UserController.DisabledBeforePassword | src/controllers/userController.js:184-187 | an inactive user is told the account is disabled even when the password is wrong |
| UserController.UpdateRejections | src/controllers/userController.js:247-263 | an unknown id is refused with 404, then a role outside the vocabulary after lower-casing with 400 |
| UserController.UpdateWritesOnlySupplied | src/controllers/userController.js:265-285 | every field the request leaves undefined keeps its value, a falsy password or role is not written, id and last login never change |
| UserController.UpdateWritesSupplied | src/controllers/userController.js:265-283 | a field sent as null is cleared, one sent with a value is set, a truthy password and role are written, the role lower-cased |
| UserController.UpdateKeepsWellFormed | src/controllers/userController.js:252-263 | an accepted update keeps the role within the vocabulary |
| UserController.PatchIdempotent | src/controllers/userController.js:265-285 | applying the same update twice equals applying it once |
| UserController.RoleChangeOrder | src/controllers/userController.js:307-327 | a missing role, then an invalid one, are refused before the user is looked up; then 404; otherwise the lower-cased role is written |
| UserController.RoleChangeIsRoleOnlyUpdate | src/controllers/userController.js:307-327 | a role change agrees with the general update carrying only that role |
| UserController.UsersByRole | src/controllers/userController.js:345-354 | the role is refused unless it is in the vocabulary exactly; otherwise the answer is exactly the ids of the users with that role, each once, largest first |
| UserController.ListingIsCaseSensitive | src/controllers/userController.js:345 | "Admin" is refused by the listing although the update handlers accept it |
| UserController.UserStore.CreateUser | src/controllers/userController.js:114-133 | stores the planned user under the next id, or changes nothing on a rejection; keeps the table invariant |
| UserController.UserStore.LoginUser | src/controllers/userController.js:177-205 | on success writes only the caller's last login; every rejection leaves the table alone |
| UserController.UserStore.UpdateUser | src/controllers/userController.js:247-285 | writes the planned row in place, or nothing; keeps unique keys and the role vocabulary |
| UserController.UserStore.UpdateUserRole | src/controllers/userController.js:307-327 | writes the lower-cased role in place, or nothing |
| UserController.UserStore.GetUsersByRole | src/controllers/userController.js:345-354 | answers exactly the rows with the given role, each once, in decreasing id order, or refuses a role outside the vocabulary |
| UserController.UserStore.DeleteUser | src/controllers/userController.js:364-375 | removes exactly the named user, or answers 404 and changes nothing |
| AuthMiddleware.Authenticate | src/middleware/authMiddleware.js:8-21 | a missing or empty header is refused with 401; success means the header names a stored user and the caller is that user |
| AuthMiddleware.AuthenticateKnownId | src/middleware/authMiddleware.js:14-21 | a header carrying a user's id in decimal resolves to that user |
| AuthMiddleware.AuthenticateUnknownId | src/middleware/authMiddleware.js:14-17 | a header carrying an id that names nobody is refused with 401 |
| AuthMiddleware.HasRole | src/middleware/authMiddleware.js:32-44 | passes exactly a caller whose role is the required one or admin; 401 without a caller, 403 otherwise |
| AuthMiddleware.IsAdmin | src/middleware/authMiddleware.js:50-58 | passes exactly an admin caller; 401 without a caller, 403 otherwise |
| AuthMiddleware.AdminPassesEveryGate | src/middleware/authMiddleware.js:36 | a caller the admin gate lets through passes every role gate |
| AuthMiddleware.AdminGateIsAdminRole | src/middleware/authMiddleware.js:50-58 | the admin gate admits the same callers as the role gate for `admin`, with the same status codes |
| AuthMiddleware.GateStatuses | src/middleware/authMiddleware.js:32-44 | the gates refuse with 401 without a caller and with 403 otherwise |
| AuthMiddleware.Request.IsAuthenticated | src/middleware/authMiddleware.js:8-21 | attaches the resolved caller on success and leaves the request unchanged on a rejection |
| NotificationModel.NewNotification | src/models/Notification.js:10-36 | a stored notification keeps the given user, message, type and entity, and is unread |
| NotificationService.CreatorNameFallbacks | src/services/notificationService.js:27-28 | an actor who is not a user is "Someone"; a known actor is "first last" with a missing name rendered as "null" |
| NotificationService.MessageOpensWithActor | src/services/notificationService.js:37-45 | every message opens with the actor's name and " assigned you to " |
| NotificationService.WordingsDiffer | src/services/notificationService.js:37-45 | the frequency, channel, CAS and generic wordings are pairwise different |
| NotificationService.GenericWordingIgnoresTag | src/services/notificationService.js:43-45 | every unknown tag gets the same generic wording |
| NotificationService.Batch | src/services/notificationService.js:33-55 | one assignment event yields exactly one record per element of the id list |
| NotificationService.BatchRecipients | src/services/notificationService.js:33-55 | the batch's recipients, in order, are the id list |
| NotificationService.BatchRecords | src/services/notificationService.js:48-54 | every record is an unread `issue_assigned` notification for the issue's id and the caller's tag, under consecutive ids |
| NotificationService.DuplicateAssigneeNotifiedTwice | src/services/notificationService.js:33-34 | a repeated assignee receives one notification per occurrence |
| NotificationService.NoListNoRecords | src/services/notificationService.js:21-24 | a missing, non-list or empty id list stores nothing |
| NotificationService.ListStoresOnePerAssignee | src/services/notificationService.js:33-55 | without a storage failure, k ids store k records under consecutive ids, the k-th for the k-th id |
| NotificationService.UnreadUserOfNumber | src/services/notificationService.js:94-102 | a non-zero numeric argument selects exactly that user |
| Decimal.ParseIntPrefix | src/services/notificationService.js:94 | `parseInt` is NaN exactly when no digit of the selected base follows the white space, the sign and the optional "0x"; a non-zero result is negative exactly after a '-' |
| Decimal.ParseIntPrefixOfIntText | src/services/notificationService.js:94 | `parseInt(String(n))` gives `n` back for every integer |
| Decimal.ParseIntPrefixOfHex | src/services/notificationService.js:94 | "0x" followed by hexadecimal digits reads as their base-16 value, and a bare "0x" is NaN |
| Decimal.ParseIntHexExample | src/services/notificationService.js:94 | "0x10" reads as 16 |
| Decimal.ParseIntEmptyHexExample | src/services/notificationService.js:94 | "0x" reads as NaN |
| Decimal.ParseIntSignedHexExample | src/services/notificationService.js:94 | "-0X1f" reads as -31: the prefix may follow a sign and be upper-case |
| Decimal.ParseIntTrailingExample | src/services/notificationService.js:94 | "12abc" reads as 12: reading stops at the first non-digit |
| Decimal.ParseIntBadHexExample | src/services/notificationService.js:94 | "0xg" reads as NaN |
| NotificationService.UnreadUserOfHexText | src/services/notificationService.js:94-102 | the string "0x10" selects user 16, and "0x" is NaN and selects nobody |
| NotificationService.UnreadUserRejectsFalsy | src/services/notificationService.js:94-97 | falsy arguments select nobody |
| NotificationService.UnreadIds | src/services/notificationService.js:94-106 | no ids when the argument is falsy or `parseInt` (with no radix, so "0x" reads as hexadecimal) gives NaN; otherwise exactly that user's unread rows, each once, largest id first |
| NotificationService.MarkedAll | src/services/notificationService.js:124-128 | every row of the user becomes read, every other row is unchanged |
| NotificationService.MarkedOne | src/services/notificationService.js:130-133 | only a row matching both id and user becomes read; otherwise the table is unchanged |
| NotificationService.MarkedAllLeavesNothingUnread | src/services/notificationService.js:124-128 | after marking all, the unread query finds nothing for that user |
| NotificationService.MarkIdempotent | src/services/notificationService.js:124-134 | marking twice is marking once, for both forms |
| NotificationService.CrossUserMarkIsNoop | src/services/notificationService.js:130-135 | marking another user's notification changes nothing |
| NotificationService.MarkingKeepsRecords | src/services/notificationService.js:124-134 | marking changes nothing but read flags |
| NotificationService.StoreBatch | src/services/notificationService.js:33-56 | inserts the batch in order under consecutive ids up to the first failing insert, keeping ids unique, below the next id and timestamps growing with the id |
| NotificationService.UnreadRecords | src/services/notificationService.js:94-106 | the records of the unread query are exactly the user's unread rows, each once, newest first, and none for an invalid user |
| NotificationService.NotificationStore.CreateAssignmentNotifications | src/services/notificationService.js:12-64 | a non-list or empty value stores nothing; otherwise the batch is stored under consecutive ids up to the first failing insert, and the answer is the whole batch, or [] on a failure |
| NotificationService.NotificationStore.GetUnreadNotifications | src/services/notificationService.js:89-114 | [] for a falsy argument or one `parseInt` reads as NaN; otherwise exactly the unread rows of the user `parseInt` reads, each once, newest first |
| NotificationService.NotificationStore.GetAllNotifications | src/services/notificationService.js:70-82 | every row, each once, newest first |
| NotificationService.NotificationStore.MarkAsRead | src/services/notificationService.js:122-140 | "all" marks every row of the user; a numeric id marks only the matching row of that user; the answer is true even when no row matched |
| CasIssueModel.VocabulariesAreSets | src/models/CasIssue.js:5-25 | the issue types, severities and statuses are free of repeats, and the default status "New" is a status |
| CasIssueController.DisplayName | src/controllers/casIssueController.js:57 | the display name is never empty, has no surrounding white space, and is "Unknown" or no longer than the two names and a space |
| CasIssueController.DisplayNameWithoutNames | src/controllers/casIssueController.js:57 | a user without names is "Unknown" |
| CasIssueController.DisplayNameOfBlankNames | src/controllers/casIssueController.js:57 | names of only white space give "Unknown" |
| CasIssueController.DisplayNameOfCleanNames | src/controllers/casIssueController.js:57 | names without surrounding white space give "first last" |
| CasIssueController.NameFallbacksDiffer | src/controllers/casIssueController.js:57 | for a user without names, the display name says "Unknown" while the notifier says "null null" |
| CasIssueController.CreateChecksFieldsFirst | src/controllers/casIssueController.js:33-38 | a falsy issue type, severity or description is refused with 400 whatever the user directory holds |
| CasIssueController.CreateChecksUsers | src/controllers/casIssueController.js:41-58 | a truthy reporter, then a truthy assignee, that names no user is refused |
| CasIssueController.CreatedCasIssueShape | src/controllers/casIssueController.js:61-69 | a created issue is New, uncompleted, valid, assigned to the supplied existing assignee or to nobody, and keeps the supplied fields |
| CasIssueController.UpdateUnknownIsNotFound | src/controllers/casIssueController.js:275-279 | an update of an unknown issue is refused with 404 |
| CasIssueController.UpdateNotifiesNewAssigneeOnly | src/controllers/casIssueController.js:286-305 | a notification is due exactly when a truthy assignee differs from the old one, and it is for that existing, now assigned user |
| CasIssueController.ClearingAssigneeIsSilent | src/controllers/casIssueController.js:290-305 | clearing the assignee with null or 0 writes that value and notifies nobody |
| CasIssueController.CompletionNeedsCompleter | src/controllers/casIssueController.js:312-327 | completing without a truthy completer, or with an unknown one, is refused |
| CasIssueController.CompletionFields | src/controllers/casIssueController.js:308-331 | "Completed" writes the time and completer together; any other status leaves both as they were |
| CasIssueController.UpdateWritesOnlyNamedFields | src/controllers/casIssueController.js:281-333 | only the assignee, the status and the completion fields change; the status only when truthy, the assignee only when present |
| CasIssueController.UpdateKeepsInvariants | src/controllers/casIssueController.js:308-331 | an accepted update keeps the issue within its vocabularies and its completion fields paired |
| CasIssueController.ReopenedIssueKeepsCompletion | src/controllers/casIssueController.js:308-331 | moving a completed issue back to "In Progress" keeps its completion time and completer |
| CasIssueController.UpdateActorPrecedence | src/controllers/casIssueController.js:346 | the notification's actor is the first truthy of caller, completer and reporter |
| CasIssueController.CasListing | src/controllers/casIssueController.js:122-129 | exactly the issues in the supplied status, or all of them, largest id first |
| CasIssueController.CasIssueStore.CreateCasIssue | src/controllers/casIssueController.js:9-82 | stores the planned issue under the next id and, iff the assignee is truthy, fans out one notification for it in the reporter's name; a rejection changes nothing |
| CasIssueController.CasIssueStore.UpdateCasIssue | src/controllers/casIssueController.js:270-348 | writes the planned row in place, then notifies only the newly assigned user, in the name of caller, completer or reporter; a rejection changes nothing |
| CasIssueController.CasIssueStore.GetAllCasIssues | src/controllers/casIssueController.js:119-129 | exactly the issues in the supplied status, each once, newest first |
| CasIssueController.CasIssueStore.GetCasIssueById | src/controllers/casIssueController.js:197-206 | the stored issue, or 404 |
| JsonText.ParseStringify | src/models/ChannelIssue.js:29-35 | parsing the text the setter's stringify writes gives back the value |
| ListIssueModel.Setter | src/models/ChannelIssue.js:33-35 | the stored text is never empty |
| ListIssueModel.GetterSetter | src/models/ChannelIssue.js:26-36 | reading the column back gives what was written, or [] for a falsy value |
| ListIssueModel.GetterSetterCases | src/models/FrequencyIssue.js:26-36 | a list reads back as itself; null, undefined and other falsy values read back as [] |
| ListIssueModel.DefaultAssignee | src/models/FrequencyIssue.js:26-32 | the default text "[]" is what the setter writes for [], and it and the empty text read back as [] |
| ListIssueModel.SetterIdempotent | src/models/ChannelIssue.js:29-35 | writing back a value just read leaves the text unchanged |
| ListIssueController.ParseFieldCases | src/controllers/channelIssueController.js:27-34 | a string is replaced by its parse, a string that fails to parse is kept, anything else passes through |
| ListIssueController.Filter | src/controllers/channelIssueController.js:172 | the filtered list is no longer than the input |
| ListIssueController.FilterMembers | src/controllers/channelIssueController.js:172 | a value is in the filtered list exactly when it is in the input and passes the test |
| ListIssueController.FilterCount | src/controllers/channelIssueController.js:172 | each kept element occurs as often as in the input, each dropped one not at all |
| ListIssueController.FilterAppend | src/controllers/channelIssueController.js:172 | filtering distributes over concatenation, so order is kept |
| ListIssueController.DeltaOfLists | src/controllers/channelIssueController.js:166-173 | between two lists, the delta is exactly the new elements absent from the old list, each as often as in the new list |
| ListIssueController.DeltaOfAppend | src/controllers/channelIssueController.js:166-173 | appending to the old list assigns exactly the filtered appendix, in order |
| ListIssueController.DeltaEdgeCases | src/controllers/frequencyIssueController.js:166-173 | the same list, or an emptied one, assigns nobody; a first list assigns everyone in it |
| ListIssueController.DeltaOfNonList | src/controllers/channelIssueController.js:171-173 | a non-list new value assigns nobody |
| ListIssueController.DeltaExamples | src/controllers/channelIssueController.js:171-173 | [7, 9] to [7, 9, 11] assigns [11]; [7] to [7, 8, 8] assigns [8, 8] |
| ListIssueController.DeltaAgainstText | src/controllers/channelIssueController.js:172 | against an old string the test is a substring test: "12" counts users 1 and 2 as assigned |
| ListIssueController.DeltaAgainstNumber | src/controllers/channelIssueController.js:172 | against an old number the membership test throws once there is a new assignee |
| ListIssueController.CreatedListIssueShape | src/controllers/channelIssueController.js:36-44 | a created issue is Open, dated now, keeps the supplied columns, and its assignee column reads back as the parsed value or [] |
| ListIssueController.CreateAcceptsAnyAssignees | src/controllers/frequencyIssueController.js:36-44 | any issue type and any assignee ids are accepted; nothing checks that the assignees exist |
| ListIssueController.ListUpdateUnknownIsNotFound | src/controllers/channelIssueController.js:147-154 | an update of an unknown issue is refused with 404 |
| ListIssueController.ListUpdateWritesOnlyTruthy | src/controllers/channelIssueController.js:175-182 | only truthy fields are written; id, creator and report date never change; the assignee column changes only for a truthy value |
| ListIssueController.OmittedAssigneesNoDelta | src/controllers/frequencyIssueController.js:166-173 | leaving the assignees out assigns nobody new |
| ListIssueController.ListToListUpdate | src/controllers/channelIssueController.js:166-182 | replacing a stored list by a new one assigns the list delta and stores the new list |
| ListIssueController.NonListIsWrittenSilently | src/controllers/channelIssueController.js:171-182 | a truthy non-list assignee value is written but assigns nobody |
| ListIssueController.ListUpdateKeepsInvariants | src/controllers/frequencyIssueController.js:175-182 | an accepted update keeps the row within its enumerations and its column decodable |
| ListIssueController.TagsAreKnown | src/controllers/channelIssueController.js:54 | the channel and frequency handlers pass the tags the notifier words specially |
| ListIssueController.ListIds | src/controllers/channelIssueController.js:78-89 | exactly the rows meeting every supplied filter, largest id first |
| ListIssueController.ListIssueStore.Create | src/controllers/channelIssueController.js:27-59 | stores the planned issue under the next id and, iff the parsed assignees are a non-empty list, fans out exactly that list in the creator's name |
| ListIssueController.ListIssueStore.Update | src/controllers/frequencyIssueController.js:147-193 | writes the planned row in place, then notifies exactly the non-empty delta in the name of caller or creator; a rejection changes nothing |
| ListIssueController.ListIssueStore.GetById | src/controllers/frequencyIssueController.js:111-118 | the stored issue, or 404 |
| ListIssueController.ListIssueStore.Delete | src/controllers/channelIssueController.js:214-223 | removes exactly the named issue, or answers 404 and changes nothing |
| ListIssueController.ListIssueStore.GetAll | src/controllers/frequencyIssueController.js:78-89 | exactly the rows meeting every supplied filter, each once, latest report date first |

## Left out

- HTTP transport: Express wiring, routes, response envelopes and the `dbConnected` gate are plumbing. Handlers answer an `Outcome` whose rejection reason maps to a status code.
- Logging (`console.log`, `console.error`) has no effect on state.
- Response enrichment is left out: the nested `assignedToUser`, `reportedByUser` and `completedByUser` objects and the full names attached to responses. Only the display-name composition is modelled.
- The formatting of `getAllUsers` and `getUserById` responses is response shaping, not state.
- The metadata endpoints only return constant lists.
- Avatar upload is file-system I/O and randomness.
- bcrypt is a foreign library, and its branch is unreachable while plain passwords are in use. Passwords are compared as plain text.
- The role check in the CAS routes always passes, so there is nothing to model.
- The enumeration of spelling variants at the top of `createUser` is dead code.
- Sequelize timestamps are an abstract clock `now`. The model requires `now` never to run backwards. `DATEONLY` truncation of `dateReported` is not modelled; the full clock value is stored.
- Auto-increment ids consumed by failed inserts are not modelled. A rejected write leaves the id counter where it was.
- `Promise.all` is modelled sequentially. A storage failure at the k-th insert (`failAt`) keeps the first k records and answers []. The order in which concurrent inserts really complete is not modelled.
- The catch in `getAllNotifications` and `getUnreadNotifications` answers [] when the database fails. Database failures are not modelled outside the notification fan-out.
- JSON: assignee values range over undefined, null, booleans, integers, strings and integer lists. Floats, objects and lists of non-integers are not modelled. `JSON.parse` of a request string is the parameter `jsonParse`.
- The email validator is the parameter `isEmail`.
- `toLowerCase` lower-cases ASCII letters only.
- Path ids (`req.params.id` of the CAS, channel, frequency and user handlers) are modelled as integers, not as the strings the router hands over. A CAS string id compared with `!==` against a stored integer is not modelled.
- GetUsersByRole: the query has no `order` option, so the database chooses the order; the model lists the rows in decreasing id order.
- Ids are unbounded integers; the columns are 32-bit `INTEGER`s, and their overflow is not modelled.
- AuthMiddleware.Authenticate: a header that is not a decimal integer literal is modelled as a failing lookup (500). What the database does with such a key depends on the dialect. `parseInt`'s prefix parsing is used only for the unread query.
- NotificationService.NotificationStore.MarkAsRead: a notification id that is not a decimal integer literal answers false and changes nothing. The database's coercion of such ids is not modelled.
- The system's documentation says the completion fields hold only while an issue is Completed. The code, which is what is modelled, leaves them in place when the status moves on (`ReopenedIssueKeepsCompletion`).
- The system's documentation says channel and frequency assignee ids and issue types are validated. The code does not validate them, and neither does the model (`CreateAcceptsAnyAssignees`).
