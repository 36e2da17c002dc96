# Hostel food management — a verified model

This project models the core of a hostel mess (canteen) management system. The backend is an Express/Mongoose server and the admin and student pages are written in React. Every Dafny module corresponds to one source file:

- **Notifications.** `NotificationModel` and `Notifications` model the notification schema with its `isActive` getter, and the controller the admin and the students use. This covers broadcast and personal notifications, expiry, per-student `readBy` sets, the unread count, and mark-one / mark-all read.
- **Complaints and admin notifications.** `Complaints` models submission, the admin's status and response update, the response notification and the statistics fold. `AdminNotifications` models the admin mailbox with its single `read` flag per document.
- **Feedback and meal ratings.** `Feedback` models the upsert of one feedback per student, day and meal, and its listings and analytics. `MealRatings` models the rate-or-re-rate handler and its averages.
- **Students and admins.** `Students`, `StudentAuth` and `Admins` model the account collections, login decisions and the bearer-token middleware. Password hashing and token signing are parameters.
- **Grocery, menu and payments.** `Grocery`, `Menu` and `Payments` model the stock upsert, the weekly menu upsert and the payment records.
- **Admin pages.** `GroceryCalculator`, `MenuEditor`, `ExpenseTracker`, `FeedbackAnalyticsView`, `MealRatingsView`, `PaymentManagement`, `StudentManagement` and `NotificationBell` model the folds, filters, sorts and small editors in those pages.
- **Student dashboard.** `StudentDashboard` models the student's page.
- **Shared modules.** `Base` holds shared string and sequence primitives (`trim`, `toLowerCase`, `includes`, `filter`, counting and sums), and lemmas about them. `Week` holds the day and meal enumerations. `Sorting` holds a generic key sort with `limit`.

How the model is built:

- **Collections.** Each collection a controller changes is a class with a `seq` of documents. Each of its handlers is a method whose postcondition ties the new documents and the response to pure functions of the old ones. Lemmas about those functions state what the handlers promise: idempotence, invariants on ids, round trips, counts and orderings.
- **Responses.** A handler's HTTP reply is an `Outcome`:
  - `Done` carries the result;
  - `Fail` carries the status code and message;
  - `Unhandled` stands for a handler with no `try`/`catch` whose promise rejects.
- **Inputs.** The clock (`now`), fresh database ids, bcrypt and JWT enter as parameters.

Behaviour of the code worth knowing before reading the table:

- The menu upsert (`backend/controllers/menuController.js:14-33`) strips no ingredient rows. A row without a name or unit fails the subdocument validation of `backend/models/Menu.js:3-7`, and the whole update is refused (`Menu.CastIngredients`).
- `markAllAsRead` (`backend/controllers/notificationController.js:148-151`) filters only on expiry. The student becomes a reader of every active notification, including personal ones addressed to other students (`Notifications.MarkAllReadReachesOthers`).
- The unread count has the same filter. That case is logged under Findings.

## Model

| member | source | states |
|---|---|---|
| Base.Trim | backend/controllers/complaintController.js:14 | `String.prototype.trim`: no longer than the input, empty exactly for an all-whitespace string, otherwise starting and ending on a non-space |
| Base.JsLength | backend/controllers/studentController.js:19 | `String.prototype.length`: the number of UTF-16 code units, between the number of code points and twice that |
| Base.JsLengthIsSize | backend/models/Notification.js:5-6 | the UTF-16 length equals the number of code points exactly when no character lies outside the Basic Multilingual Plane |
| Base.JsLengthAstral | backend/controllers/complaintController.js:14 | a string made only of characters outside the Basic Multilingual Plane is twice as long in UTF-16 code units as in characters |
| Base.JsLengthConcat | backend/controllers/complaintController.js:31 | the UTF-16 length of a concatenation is the sum of the lengths |
| Base.JsPrefix | backend/controllers/complaintController.js:31 | `substring(0, n)` on whole code points: a prefix of at most n units that cannot grow by the next character without passing n, and the whole string exactly when it fits in n units |
| Base.TrimInfix | backend/controllers/complaintController.js:14 | the trimmed string is a contiguous piece of the input with only whitespace before and after it |
| Base.TrimIdempotent | backend/controllers/complaintController.js:22 | trimming a trimmed string changes nothing |
| Base.Lower | backend/controllers/adminController.js:15 | ASCII `toLowerCase` keeps the length |
| Base.LowerAt | backend/controllers/adminController.js:15 | ASCII `toLowerCase` works character by character: each ASCII letter A–Z lowered and every other character unchanged |
| Base.SecondField | backend/middleware/studentAuthMiddleware.js:14 | `split(' ')[1]`: undefined exactly when the header holds no space; otherwise the space-free run of characters that follows the first space, up to the next space or the end |
| Base.NatToString | frontend/src/components/NotificationBell.jsx:19-22 | a template literal's decimal form of a count: non-empty digits with no leading zero that read back as the number |
| Base.BearerField | backend/middleware/studentAuthMiddleware.js:14 | the token is recovered from a "Bearer <token>" header |
| Base.IncludesAt | frontend/src/pages/PaymentManagement.jsx:132-133 | `includes` holds exactly when the search term occurs at some position |
| Base.AddToSet | backend/controllers/notificationController.js:134-136 | `$addToSet`: the element is present afterwards, nothing else is added, a duplicate-free set stays duplicate-free, and a present element changes nothing |
| Base.AddToSetIdempotent | backend/controllers/notificationController.js:134-136 | adding the same reader twice has the effect of adding it once |
| Base.KeyIndex | backend/controllers/notificationController.js:53 | `findById`: the first document with that id, and none exactly when no document has it |
| Base.KeyIndexUnique | backend/controllers/notificationController.js:53 | with unique ids, looking up a document's own id finds that document |
| Base.RemoveKey | backend/controllers/notificationController.js:73 | `findByIdAndDelete`: no document with that id remains and every other document stays |
| Base.RemoveKeyExactly | backend/controllers/adminNotificationController.js:38 | with unique ids, deleting an unknown id changes nothing and deleting a known one removes exactly that position |
| Base.DistinctKeys | frontend/src/pages/ExpenseTracker.jsx:60-64 | the keys of a grouping object: each key once, exactly the keys that occur, no more of them than elements |
| NotificationModel.ParseType | backend/models/Notification.js:7 | the `type` enum accepts a string exactly when it names one of the five types, and yields that type |
| NotificationModel.Save | backend/models/Notification.js:5-6 | a document is stored exactly when its title and message are non-empty and at most 150 and 1000 UTF-16 code units long, and it is stored unchanged |
| NotificationModel.NoExpiryAlwaysActive | backend/models/Notification.js:19-20 | a notification without `expiresAt` is active at every instant |
| NotificationModel.ExpiryBoundary | backend/models/Notification.js:21 | with an expiry, active exactly when now is strictly before it, so inactive at the expiry instant itself |
| NotificationModel.ExpiryIsFinal | backend/models/Notification.js:19-22 | once inactive, a notification is inactive at every later instant |
| Notifications.IndexOf | backend/controllers/notificationController.js:53 | `findById` gives a position holding that id, and -1 exactly when no document has it |
| Notifications.CreateOutcome | backend/controllers/notificationController.js:9-24 | 400 exactly when title or message is falsy; 500 exactly when the type (default Info) is not in the enum or a trimmed text is empty or longer, in UTF-16 code units, than its limit; otherwise the stored document has the trimmed texts, the type, a broadcast target, no readers, and the expiry only when one was sent |
| Notifications.Updated | backend/controllers/notificationController.js:57-60 | a falsy title, message or type keeps the old value and a truthy one replaces it (trimmed); the expiry follows NewExpiry; id, target, readers and creation time are kept; an unknown type is refused |
| Notifications.NewExpiry | backend/controllers/notificationController.js:60 | an absent expiry keeps the current one, a falsy one clears it, a date replaces it |
| Notifications.UpdateOutcome | backend/controllers/notificationController.js:53-65 | 404 exactly when the id is unknown; otherwise the saved document is the updated one and the schema accepts it, and every accepted update succeeds |
| Notifications.UpdateIdempotent | backend/controllers/notificationController.js:57-60 | sending the same update twice leaves what sending it once left |
| Notifications.EmptyUpdateKeeps | backend/controllers/notificationController.js:57-60 | an update with only falsy fields and no expiry field changes nothing |
| Notifications.AddReader | backend/controllers/notificationController.js:135 | `$addToSet` puts the student in `readBy` |
| Notifications.MarkRead | backend/controllers/notificationController.js:134-136 | the document with that id gains the student as a reader and every other document is unchanged |
| Notifications.MarkReadIdempotent | backend/controllers/notificationController.js:134-136 | marking the same notification read twice is marking it once |
| Notifications.MarkAllRead | backend/controllers/notificationController.js:148-151 | every active document gains the student as a reader, whoever it is addressed to; inactive ones are unchanged |
| Notifications.MarkReadWellFormed | backend/controllers/notificationController.js:134-151 | both read marks keep ids unique and every `readBy` free of duplicates |
| Notifications.VisibleDocs | backend/controllers/notificationController.js:89-95 | the feed query keeps exactly the unexpired documents that are broadcasts or addressed to the student |
| Notifications.StudentNotifications | backend/controllers/notificationController.js:89-96 | the feed holds exactly the visible documents, each as often as in the collection, newest first |
| Notifications.ToFeedItem | backend/controllers/notificationController.js:98-107 | `isRead` holds exactly when the student is in `readBy`, `isPersonal` exactly when the document has a target; the other fields are copied |
| Notifications.StudentFeed | backend/controllers/notificationController.js:84-109 | one entry per sorted visible document, holding that document's id, title, message, type, creation and expiry dates, with its read and personal flags |
| Notifications.UnreadCount | backend/controllers/notificationController.js:117-124 | the count is 0 exactly when the student has read every active document, addressed to anybody |
| Notifications.VisibleUnreadCount | backend/controllers/notificationController.js:120-123 | the count restricted to visible documents never exceeds the count as written |
| Notifications.FeedUnreadIsVisibleUnread | backend/controllers/notificationController.js:89-107 | the number of unread entries of the feed is the visible unread count |
| Notifications.UnreadCountCountsOthersPersonal | backend/controllers/notificationController.js:120-123 | a personal notification for another student makes the count 1 while the feed has no unread entry |
| Notifications.MarkAllReadClearsUnread | backend/controllers/notificationController.js:145-151 | after markAllAsRead the unread count and the feed's unread entries are both 0 |
| Notifications.MarkAllReadReachesOthers | backend/controllers/notificationController.js:148-151 | an active notification addressed to another student is not in the feed, yet gets the student as a reader |
| Notifications.MarkReadShowsRead | backend/controllers/notificationController.js:134-136 | after markAsRead that notification's feed entry is read and no document with another id changed |
| Notifications.ToAdminItem | backend/controllers/notificationController.js:36-40 | a listing row carries the document, `readCount` = the length of `readBy`, and `isActive` as the model defines it |
| Notifications.AdminListing | backend/controllers/notificationController.js:30-42 | one row per document, in AdminOrder, each with its read count and activity |
| Notifications.AdminOrder | backend/controllers/notificationController.js:32-34 | every document exactly as often as stored, newest first |
| Notifications.ReadCountIsReaders | backend/controllers/notificationController.js:38 | in a well-formed collection the read count is the number of distinct readers |
| Notifications.DeleteWellFormed | backend/controllers/notificationController.js:73 | deleting an id keeps the collection well formed |
| Notifications.MarkReadAt | backend/controllers/notificationController.js:134-136 | with unique ids, markAsRead changes nothing for an unknown id and otherwise exactly the document at its `findById` position |
| Notifications.NotificationStore.Create | backend/controllers/notificationController.js:5-26 | answers CreateOutcome and appends the document exactly when it succeeds, keeping ids unique |
| Notifications.NotificationStore.Update | backend/controllers/notificationController.js:50-67 | the field-by-field assignments answer UpdateOutcome and replace the document in place exactly when it succeeds |
| Notifications.NotificationStore.Delete | backend/controllers/notificationController.js:71-79 | 404 exactly when the id is unknown, and the collection loses exactly the document with that id |
| Notifications.NotificationStore.MarkAsRead | backend/controllers/notificationController.js:132-141 | always answers "Marked as read" and leaves MarkRead of the old collection |
| Notifications.NotificationStore.MarkAllAsRead | backend/controllers/notificationController.js:145-156 | the document-by-document loop leaves MarkAllRead of the old collection |
| Complaints.ParseType | backend/models/Complaint.js:6 | the `type` enum accepts a string exactly when it names Complaint or Suggestion, and yields that value |
| Complaints.ParseCategory | backend/models/Complaint.js:7 | the `category` enum accepts exactly the four category names and yields the one named |
| Complaints.ParseStatus | backend/models/Complaint.js:9 | the `status` enum accepts exactly "Pending", "In Progress" and "Resolved" and yields the one named |
| Complaints.NewComplaint | backend/controllers/complaintController.js:9-23 | 400 exactly when category or description is falsy or the trimmed description is under 10 UTF-16 code units; 500 exactly when otherwise the type (default Complaint) or category is outside its enum or the trimmed description exceeds 1000 code units; otherwise a Pending complaint with no response, the trimmed description, the requester and the type and category sent |
| Complaints.AstralDescriptionAccepted | backend/controllers/complaintController.js:14 | a description of five characters from outside the Basic Multilingual Plane (five emoji) is ten UTF-16 code units long, passes the 10-unit minimum and is accepted |
| Complaints.NoteBody | backend/controllers/complaintController.js:31 | the body is `[category] ` and the description, cut to its longest prefix of at most 120 UTF-16 code units with `...` appended exactly when the description was longer than 120 units; the body is at most 154 units, within the 500-unit schema limit |
| Complaints.NoteKind | backend/controllers/complaintController.js:32 | the admin notification is of kind suggestion exactly for a Suggestion, and complaint exactly for a Complaint |
| Complaints.NoteFor | backend/controllers/complaintController.js:29-35 | a stored admin notification refers to the complaint (`refId`, `refModel` "Complaint"), has the kind above, the trimmed title, and is unread |
| Complaints.NoteBodyUntrimmed | backend/controllers/complaintController.js:31 | for a stored (trimmed) description the body is non-empty and trimming leaves it unchanged |
| Complaints.NoteForStored | backend/controllers/complaintController.js:29-35 | with a trimmed description and a title that fits, the admin notification is always stored, with the body above |
| Complaints.NoteForBody | backend/models/AdminNotification.js:7 | a stored notification keeps the body as built when trimming does not change it |
| Complaints.NoteForLongTitle | backend/models/AdminNotification.js:6 | a trimmed title longer than 150 UTF-16 code units makes `AdminNotification.create` fail |
| Complaints.NoteTitleNotBlank | backend/controllers/complaintController.js:30 | `New <type> from <name>` is never blank after trimming, whatever the name |
| Complaints.Responded | backend/controllers/complaintController.js:86-89 | the handler fails before or at the save exactly when the response field is present but not a string (`trim` throws) or a truthy status is outside the enum; otherwise the status is replaced only when one was sent, the response (trimmed) only when the field was a string, and nothing else changes |
| Complaints.ResponseText | backend/controllers/complaintController.js:93 | a notification is due exactly when the response field is a string that is not all white space, and its text is the trimmed response |
| Complaints.ResponseDoc | backend/controllers/complaintController.js:101-107 | the trim setters run on title and message; the personal notification is stored exactly when the trimmed title and message are non-empty and within 150 and 1000 UTF-16 code units, and is then a never-expiring Response addressed to the student with no readers, holding the trimmed texts |
| Complaints.ResponseNotification | backend/controllers/complaintController.js:93-108 | a notification is attempted exactly when the response text is due |
| Complaints.ResponseTitleUntrimmed | backend/controllers/complaintController.js:94-96 | both title forms are already trimmed |
| Complaints.ResponseTitleFits | backend/controllers/complaintController.js:94-96 | both title forms are non-empty and fit the 150-unit title limit |
| Complaints.ResponseTitleTellsUpdate | backend/controllers/complaintController.js:94-96 | the title starts with "Response updated" exactly when the complaint had a response before the update |
| Complaints.ResponseMessageUntrimmed | backend/controllers/complaintController.js:98 | the message starts with `Your` and ends with a quote: it is never empty and trimming leaves it unchanged |
| Complaints.ResponseNotificationStored | backend/controllers/complaintController.js:93-107 | when a response is due, the notification is stored exactly when the message fits in 1000 UTF-16 code units, and then carries the title and message as built and the complaint's student |
| Complaints.ResponseBuiltStored | backend/controllers/complaintController.js:94-107 | the built message is kept by `trim` and never empty, so with either title the notification is stored exactly when the message fits in 1000 code units |
| Complaints.ResponseTitleKept | backend/models/Notification.js:5 | a stored response notification holds the title exactly as built (the trim setter changes nothing) and the student given |
| Complaints.ResponseMessageKept | backend/models/Notification.js:6 | a stored response notification holds the message exactly as built |
| Complaints.ResponseDocStored | backend/controllers/complaintController.js:94-107 | both titles pass the schema, so for a trimmed non-empty message the notification is stored exactly when the message fits |
| Complaints.TrimmedDocStored | backend/models/Notification.js:5-6 | for texts the trim setters keep and a non-empty title within its limit, the notification is stored exactly when the non-empty message fits, and then holds both texts unchanged |
| Complaints.StatusOnlyUpdateIsSilent | backend/controllers/complaintController.js:92-93 | an update without a response field, or with a blank one, creates no notification |
| Complaints.AllComplaints | backend/controllers/complaintController.js:58-69 | the listing holds exactly the complaints matching every filter given, each as often as it is stored, newest first |
| Complaints.AllComplaintsUnfiltered | backend/controllers/complaintController.js:60-67 | with no filter the listing is every complaint, each exactly once |
| Complaints.MyComplaints | backend/controllers/complaintController.js:46-50 | the listing holds exactly the student's own complaints, each as often as it is stored, newest first |
| Complaints.GroupsOverCounts | backend/controllers/complaintController.js:124-131 | every `$group` result is a status with the number of complaints that have it, never 0 |
| Complaints.GroupsOverComplete | backend/controllers/complaintController.js:124-131 | every status some complaint has gets a group |
| Complaints.GroupsOverDistinct | backend/controllers/complaintController.js:124-131 | the groups have distinct statuses |
| Complaints.EveryStatusListed | backend/models/Complaint.js:9 | the three enum values are all the statuses |
| Complaints.ComplaintStats | backend/controllers/complaintController.js:133-137 | each per-status field is the count of the last group with that status (0 when there is none) and the total is the sum of all group counts |
| Complaints.CountForAbsent | backend/controllers/complaintController.js:133-135 | a status no group has keeps its initial 0 |
| Complaints.CountForPresent | backend/controllers/complaintController.js:134-135 | with distinct statuses, a group's status reports exactly that group's count |
| Complaints.TotalIsSumOfCounts | backend/controllers/complaintController.js:133-137 | with distinct statuses the total equals pending + in progress + resolved |
| Complaints.StatsOfCollection | backend/controllers/complaintController.js:122-139 | over a collection, each status count is the number of complaints with that status and the total is the number of complaints |
| Complaints.CountIsTally | backend/controllers/complaintController.js:124-131 | the aggregation's count for any status is the number of complaints with that status, 0 when none has it |
| Complaints.GroupByStatus | backend/controllers/complaintController.js:124-131 | one group per status that occurs, statuses distinct, each count the number of complaints with that status and never 0 |
| Complaints.StatusesSplit | backend/models/Complaint.js:9 | every complaint has exactly one of the three statuses |
| Complaints.ComplaintStore.constructor | backend/models/Complaint.js:3-15 | the collection starts empty |
| Complaints.ComplaintStore.Submit | backend/controllers/complaintController.js:7-41 | a rejected request changes nothing; an accepted one appends the complaint, then the admin notification; when that fails the complaint stays and the answer is 500; ids stay unique |
| Complaints.ComplaintStore.Record | backend/controllers/complaintController.js:18-23 | `Complaint.create` appends the complaint and keeps ids unique |
| Complaints.ComplaintStore.Update | backend/controllers/complaintController.js:77-117 | 404 and no change for an unknown id; 500 and no change when the response field is not a string, a truthy status is outside the enum, or the complaint's student no longer exists (the save of the null `student` path fails); otherwise the complaint is replaced by its updated form and the personal notification is appended when due and valid, else the answer is 500 with the complaint still saved |
| AdminNotifications.Create | backend/models/AdminNotification.js:4-15 | a document is stored exactly when the trimmed title (at most 150 UTF-16 code units) and trimmed body (at most 500) are non-empty; it then holds the trimmed texts, the kind and reference given, and is unread |
| AdminNotifications.CreateStored | backend/models/AdminNotification.js:6-7 | a non-empty body that trimming leaves unchanged, within 500 UTF-16 code units, under a non-blank title of at most 150 units, always passes the schema and is stored as given |
| AdminNotifications.Listing | backend/controllers/adminNotificationController.js:6-8 | at most 50 notifications, newest first, none listed more often than it is stored; with 50 or fewer documents, every one of them exactly as often as stored |
| AdminNotifications.ListingKeepsNewest | backend/controllers/adminNotificationController.js:6-8 | a notification left out of the listing is no newer than any notification listed |
| AdminNotifications.MarkRead | backend/controllers/adminNotificationController.js:18 | the document with that id becomes read and every other document is unchanged |
| AdminNotifications.MarkReadIdempotent | backend/controllers/adminNotificationController.js:18 | marking the same notification read twice is marking it once |
| AdminNotifications.MarkAllRead | backend/controllers/adminNotificationController.js:28 | every document becomes read and nothing else changes |
| AdminNotifications.MarkAllReadClears | backend/controllers/adminNotificationController.js:28 | afterwards no notification is unread |
| AdminNotifications.MarkReadCount | backend/controllers/adminNotificationController.js:18 | the unread count drops by exactly the number of unread documents with that id |
| AdminNotifications.MarkReadAt | backend/controllers/adminNotificationController.js:18 | with unique ids, an unknown id changes nothing and a known one updates exactly its document |
| AdminNotifications.AdminMailbox.constructor | backend/models/AdminNotification.js:4-15 | the collection starts empty |
| AdminNotifications.AdminMailbox.Add | backend/models/AdminNotification.js:4-15 | `create` appends the document and keeps ids unique |
| AdminNotifications.AdminMailbox.MarkAsRead | backend/controllers/adminNotificationController.js:16-23 | the collection becomes MarkRead of the old one and the answer is "Marked as read", also for an unknown id |
| AdminNotifications.AdminMailbox.MarkAllAsRead | backend/controllers/adminNotificationController.js:26-33 | the collection becomes MarkAllRead of the old one and the answer is "All marked as read" |
| AdminNotifications.AdminMailbox.Dismiss | backend/controllers/adminNotificationController.js:36-43 | the document with that id is removed, all others kept in order, and the answer is "Dismissed", also for an unknown id |
| Admins.Reply | backend/controllers/adminController.js:18-24 | the login answer carries the admin's id, name, email and role and the token, never the password hash |
| Admins.LoginEmail | backend/controllers/adminController.js:15 | the lookup key is the lower-cased, trimmed email: no longer than the input and already trimmed |
| Admins.LoginEmailNoUpper | backend/controllers/adminController.js:15 | the lookup key never contains an ASCII upper-case letter |
| Admins.AuthOutcome | backend/controllers/adminController.js:7-32 | 400 exactly when email or password is falsy; success exactly when an admin has the normalised email and the password matches its hash, with that admin's reply and token; 401 in every other case |
| Admins.MixedCaseEmailNeverLogsIn | backend/controllers/adminController.js:15-17 | an admin whose stored email holds any ASCII upper-case letter is never the one a login returns |
| Admins.RegisterOutcome | backend/controllers/adminController.js:37-67 | 400 exactly when an admin has that exact email; otherwise created exactly when the schema accepts the new admin (with the hashed password), else 500; "Invalid admin data" is never answered |
| Admins.RegisterCaseVariant | backend/controllers/adminController.js:41-44 | the duplicate check is case-sensitive: "A@hostel.in" registers beside "a@hostel.in" |
| Admins.Profiled | backend/controllers/adminController.js:78-79 | a falsy name or email keeps the old value, a truthy one replaces it; id, password and role are kept |
| Admins.ProfileOutcome | backend/controllers/adminController.js:73-92 | 404 exactly when the admin is unknown; success exactly when the schema accepts the profiled admin, answering its fields and the second word of the Authorization header; 500 otherwise |
| Admins.PasswordOutcome | backend/controllers/adminController.js:98-113 | 404 exactly for an unknown admin; 400 exactly when the current password does not match; success exactly when it matches and the schema accepts the admin with the new hash, which is the new document |
| Admins.LoginAt | backend/controllers/adminController.js:15-27 | with unique addresses, an address whose lower-cased, trimmed form is a stored one logs in exactly when the password matches that admin's, and is otherwise refused with the shared 401 message |
| Admins.ChangedPasswordLogsIn | backend/controllers/adminController.js:98-113 | after a password change the admin logs in with the new password and no longer with the old one |
| Admins.AdminStore.constructor | backend/controllers/adminController.js:1 | the admins collection starts empty |
| Admins.AdminStore.Register | backend/controllers/adminController.js:37-67 | a successful registration appends the new admin and answers its reply with a token; a failure changes nothing; ids stay unique |
| Admins.AdminStore.UpdateProfile | backend/controllers/adminController.js:73-92 | answers ProfileOutcome; on success exactly the admin's document is replaced by its profiled form, otherwise nothing changes |
| Admins.AdminStore.ChangePassword | backend/controllers/adminController.js:98-113 | on success exactly the admin's document gets the new hash and the answer is "Password updated successfully"; a failure changes nothing |
| Feedback.Rejection | backend/controllers/feedbackController.js:9-14 | "required" exactly when day or meal type is falsy or the rating is 0; "between 1 and 5" exactly when otherwise the rating is out of range; accepted exactly when day and meal type are given and 1 <= rating <= 5 |
| Feedback.Saved | backend/controllers/feedbackController.js:17-21 | the record left for the request has the student/day/meal key, the new rating and liked flag and the trimmed comment |
| Feedback.UpsertWellFormed | backend/models/Feedback.js:16 | the upsert keeps ids unique and keeps the unique index on student, day and meal type |
| Feedback.Upsert | backend/controllers/feedbackController.js:16-21 | the saved record is in the collection; the collection grows by one exactly when no record had the student, day and meal; every record with another key keeps its place |
| Feedback.UpsertStores | backend/controllers/feedbackController.js:17-21 | after the upsert the record with the request's key holds the rating, liked flag and trimmed comment sent |
| Feedback.UpsertKeepsOthers | backend/controllers/feedbackController.js:17-21 | a record with another key is in the collection after the upsert exactly when it was before |
| Feedback.UpsertIdempotent | backend/controllers/feedbackController.js:16-21 | submitting the same feedback twice leaves what submitting it once left: one record per student and meal |
| Feedback.MyFeedback | backend/controllers/feedbackController.js:34 | the listing holds exactly the student's own records, each as often as it is stored |
| Feedback.AllFeedback | backend/controllers/feedbackController.js:45-51 | the listing holds exactly the records matching the day and meal filters given, each as often as it is stored, newest first |
| Feedback.AllFeedbackUnfiltered | backend/controllers/feedbackController.js:45-51 | with no filter the listing is every record exactly once |
| Feedback.GroupOf | backend/controllers/feedbackController.js:65-72 | a meal's group counts its records, lists one rating per record, counts exactly its liked records as likes and its disliked ones as dislikes, and its average is the ratings' sum over the count |
| Feedback.GroupsFor | backend/controllers/feedbackController.js:63-73 | one group per key, in the order of the keys |
| Feedback.PerMeal | backend/controllers/feedbackController.js:74 | the per-meal groups come highest average first |
| Feedback.GroupNotEmpty | backend/controllers/feedbackController.js:65-68 | a meal that has a record has a non-empty group |
| Feedback.LikesFit | backend/controllers/feedbackController.js:69-70 | likes plus dislikes never exceed the number of records, since `liked` may be absent |
| Feedback.PerMealCoversKeys | backend/controllers/feedbackController.js:63-75 | every meal that has a record gets a group |
| Feedback.PerMealEntries | backend/controllers/feedbackController.js:63-75 | every group is the group of its own meal, and that meal has a record |
| Feedback.PerMealDistinct | backend/controllers/feedbackController.js:66 | no two groups share a meal |
| Feedback.GroupTotals | backend/controllers/feedbackController.js:68 | the groups' counts add up to the number of records whose meal is among the keys |
| Feedback.PerMealPartition | backend/controllers/feedbackController.js:63-75 | the per-meal counts add up to the number of records: the groups partition the collection |
| Feedback.OverallOf | backend/controllers/feedbackController.js:78-99 | the literal `{ totalFeedback: 0, avgRating: 0 }` exactly for an empty collection; otherwise the number of records, their average rating, and exactly the liked and the disliked records as likes and dislikes |
| Feedback.OverallLikesMatchPerMeal | backend/controllers/feedbackController.js:63-88 | the per-meal like counts add up to the overall likes, and the per-meal dislike counts to the overall dislikes |
| Feedback.OverallMatchesPerMeal | backend/controllers/feedbackController.js:63-99 | the overall total equals the sum of the per-meal totals |
| Feedback.RecentComments | backend/controllers/feedbackController.js:91-95 | at most 20 records, each a stored record with a non-empty comment and none listed more often than stored, newest first, and exactly min(20, number commented) of them |
| Feedback.RecentCommentsAreNewest | backend/controllers/feedbackController.js:91-95 | with 20 or fewer commented records, every one of them is listed |
| Feedback.RecentCommentsKeepNewest | backend/controllers/feedbackController.js:91-95 | a commented record left out of the 20 is no newer than any record listed |
| Feedback.FeedbackAnalytics | backend/controllers/feedbackController.js:97-101 | the answer is made of the per-meal groups, the overall entry and the recent comments |
| Feedback.FeedbackStore.constructor | backend/models/Feedback.js:3-13 | the collection starts empty |
| Feedback.FeedbackStore.Submit | backend/controllers/feedbackController.js:5-27 | a rejected request answers 400 with its message and changes nothing; an accepted one answers the saved record and the collection becomes the upsert of the old one |
| MealRatings.TodayIndex | backend/controllers/mealRatingController.js:35-40 | the lookup finds a rating by that student for that day and meal created since midnight, and -1 exactly when there is none |
| MealRatings.SubmitOutcome | backend/controllers/mealRatingController.js:26-61 | with a rating from today, success (200, that record) exactly when the new rating passes the schema; without one, success (201, a new record dated now) exactly when the rating, day and meal type pass the schema; every failure is the 500 "Error submitting rating"; a saved record carries the rating and comment sent |
| MealRatings.SubmitOverwrites | backend/controllers/mealRatingController.js:42-46 | a valid re-rating on the same day replaces rating and comment of today's record and leaves every other record unchanged |
| MealRatings.SubmitKeepsOncePerDay | backend/controllers/mealRatingController.js:34-56 | submitting keeps at most one record per student, day and meal among those created today |
| MealRatings.NextDayAddsSecond | backend/models/MealRating.js:35-36 | the per-day check only looks at today: a valid rating for a meal rated on an earlier day adds a second record for it, keeping the first |
| MealRatings.RatingsToday | backend/controllers/mealRatingController.js:70-73 | the listing holds exactly the student's records created since midnight, in collection order |
| MealRatings.GroupOf | backend/controllers/mealRatingController.js:9-14 | a meal's group counts its ratings, pushes one entry per rating, and its average is their sum over the count |
| MealRatings.GroupsFor | backend/controllers/mealRatingController.js:7-15 | one group per key, in the order of the keys |
| MealRatings.DayRank | backend/controllers/mealRatingController.js:16 | each day gets one of 7 ranks, the position of its name in string order |
| MealRatings.MealRank | backend/controllers/mealRatingController.js:16 | each meal type gets one of 3 ranks, the position of its name in string order |
| MealRatings.DayRankIsStringOrder | backend/controllers/mealRatingController.js:16 | ranks compare exactly as the day names compare as strings |
| MealRatings.MealRankIsStringOrder | backend/controllers/mealRatingController.js:16 | ranks compare exactly as the meal names compare as strings |
| MealRatings.FridayFirst | backend/controllers/mealRatingController.js:16 | the sort is alphabetical, not calendar order: Friday comes before Monday and Tuesday before Wednesday |
| MealRatings.Analytics | backend/controllers/mealRatingController.js:7-16 | the groups are sorted by day, then meal type |
| MealRatings.AnalyticsDistinct | backend/controllers/mealRatingController.js:7-16 | one group per day and meal type: no two groups share a key |
| MealRatings.AfterSubmit | backend/controllers/mealRatingController.js:34-56 | a refused rating leaves the collection unchanged; an accepted one is in it, adding a record exactly when the student had not rated that meal today; every other record keeps its place |
| MealRatings.AnalyticsNameOrder | backend/controllers/mealRatingController.js:16 | consecutive groups are ordered by day name as a string, then by meal name |
| MealRatings.DayRankInjective | backend/models/MealRating.js:13 | distinct days have distinct ranks |
| MealRatings.MealRankInjective | backend/models/MealRating.js:18 | distinct meal types have distinct ranks |
| MealRatings.AnalyticsEntries | backend/controllers/mealRatingController.js:9-14 | every group is its meal's group and is non-empty, with one comment entry per rating |
| MealRatings.AnalyticsCoversKeys | backend/controllers/mealRatingController.js:7-16 | every meal that has a rating gets a group |
| MealRatings.RatingStore.constructor | backend/models/MealRating.js:3-33 | the collection starts empty |
| MealRatings.RatingStore.Submit | backend/controllers/mealRatingController.js:26-61 | answers SubmitOutcome and leaves the collection as AfterSubmit of the old one; ids stay unique |
| Students.ParseStatus | backend/models/Student.js:12 | the `status` enum accepts exactly "Active" and "Inactive" and yields the one named |
| Students.Public | backend/controllers/studentController.js:37-45 | the public form keeps id, name, roll number, room, email, phone and status, and has no password field |
| Students.Roster | backend/controllers/studentController.js:7-9 | one entry per student, in collection order, each the student's public form (every field but the password) |
| Students.CreateOutcome | backend/controllers/studentController.js:15-49 | 400 "at least 4 characters" exactly when the password is shorter than 4 UTF-16 code units; 400 "already exists" exactly when otherwise the roll number is taken; created exactly when additionally name, roll number and room are given, with those fields, the hashed password and status Active; every other failure is the 500 validation message |
| Students.Updated | backend/controllers/studentController.js:65-74 | a falsy field keeps the stored value and a truthy one replaces it; an unknown status makes the save fail; the password is replaced by the hash of the new one only when it has at least 4 UTF-16 code units; id and roll number are kept |
| Students.UpdateOutcome | backend/controllers/studentController.js:55-89 | 404 exactly for an unknown id; success exactly when the update above succeeds, with the updated student; every other failure is 500 "Error updating student" |
| Students.ShortPasswordIgnored | backend/controllers/studentController.js:71-74 | an update with a password shorter than 4 (and no deactivation) leaves the student able to log in as before |
| Students.DeleteOutcome | backend/controllers/studentController.js:95-107 | 404 exactly for an unknown id, "Student removed successfully" exactly for a known one |
| Students.LoginOutcome | backend/controllers/studentController.js:113-150 | 400 exactly when roll number or password is falsy; 401 "inactive" exactly when the student with the trimmed roll number is Inactive; success exactly when that student is Active and the password matches, with its id, the token and role "student"; 401 "Invalid" otherwise |
| Students.UntrimmedRollNeverLogsIn | backend/controllers/studentController.js:121 | a student whose stored roll number has surrounding white space can never log in |
| Students.LoginFindsTrimmed | backend/controllers/studentController.js:121 | a successful login is always of a student whose stored roll number is trimmed |
| Students.LoginAfterCreate | backend/controllers/studentController.js:15-50 | a student just created with a trimmed roll number logs in with the password it was given and gets its own token |
| Students.StudentStore.constructor | backend/models/Student.js:4-15 | the roster starts empty |
| Students.StudentStore.Create | backend/controllers/studentController.js:15-49 | succeeds exactly when CreateOutcome does, appending the student and answering its public form; a failure answers the same code and message and changes nothing |
| Students.StudentStore.Update | backend/controllers/studentController.js:55-89 | succeeds exactly when UpdateOutcome does, replacing exactly that student and answering its public form; a failure changes nothing |
| Students.StudentStore.Delete | backend/controllers/studentController.js:95-107 | answers DeleteOutcome; a known student is removed and everyone else kept in order; an unknown id changes nothing |
| Students.RemoveKeyStaysUnique | backend/models/Student.js:7 | deleting a student keeps roll numbers unique |
| StudentAuth.Protect | backend/middleware/studentAuthMiddleware.js:9-33 | "no token" exactly without a header starting with Bearer; "invalid token" exactly when there is no second word or it does not verify; then "Student not found" exactly when the verified id names no student and "Your account is inactive" exactly when it names an Inactive one; otherwise the request goes on with that student attached without the password |
| StudentAuth.LoginTokenPasses | backend/middleware/studentAuthMiddleware.js:12-26 | the token a login answers, sent as `Bearer <token>`, lets that student through |
| StudentAuth.ActiveBearerPasses | backend/middleware/studentAuthMiddleware.js:12-26 | a `Bearer <token>` header whose token has no space and verifies to an active student's id lets that student through, found by id |
| StudentAuth.InactiveRejectedWithValidToken | backend/middleware/studentAuthMiddleware.js:21-23 | a deactivated student is turned away even with a valid token |
| Grocery.StockOutcome | backend/controllers/groceryController.js:14-33 | for a known name, success exactly when the quantity is a number, adding it to the stock and stamping the time, with unit and alert level untouched; for a new name, success exactly when name and unit are given and no number field is NaN, holding the quantity (0 when absent) and the alert level (5 when absent); never a handled failure, since the handler has no catch |
| Grocery.Restocked | backend/controllers/groceryController.js:20-21 | the stock grows by the quantity and `lastUpdated` is now; the id, name, unit and minimum level are kept |
| Grocery.RestockedTwice | backend/controllers/groceryController.js:20-21 | restocking by q1 and then q2 is restocking by q1 + q2 at the later time |
| Grocery.StockKeepsNamesUnique | backend/models/Grocery.js:5 | updating stock keeps item names unique |
| Grocery.StockAccumulates | backend/controllers/groceryController.js:17-22 | two deliveries of an existing item leave the same collection as one delivery of their sum |
| Grocery.StockAgain | backend/controllers/groceryController.js:17-22 | a second delivery to an item already restocked adds to that same record |
| Grocery.StockKnown | backend/controllers/groceryController.js:19-22 | a delivery to a known item replaces exactly that item by its restocked form |
| Grocery.NegativeQuantityDrains | backend/controllers/groceryController.js:20 | there is no sign check: a negative quantity lowers the stock, below 0 when it exceeds what is there |
| Grocery.GroceryStore.constructor | backend/models/Grocery.js:3-12 | the collection starts empty |
| Grocery.GroceryStore.UpdateStock | backend/controllers/groceryController.js:14-33 | answers StockOutcome and leaves the collection as AfterStock of the old one; ids and names stay unique |
| Grocery.AfterStock | backend/controllers/groceryController.js:14-30 | a refused request leaves the items unchanged; an accepted one is in them, adding an item exactly when the name was new; every item with another name keeps its place |
| Menu.CastIngredients | backend/models/Menu.js:3-7 | the ingredient rows are accepted exactly when every row has a name, a numeric quantity and a unit, and are then kept as sent, in order |
| Menu.SlotIndex | backend/controllers/menuController.js:17 | the lookup finds an entry for the request's day and meal type, and -1 exactly when there is none |
| Menu.MealOutcome | backend/controllers/menuController.js:14-33 | for an existing slot, success exactly when the food items are given and the rows are accepted, keeping the entry's id and slot; for a new slot, success exactly when in addition day and meal type are in their enums, with the fresh id; a saved entry holds the food items and the rows sent; never a handled failure |
| Menu.MealTouchesOneSlot | backend/controllers/menuController.js:17-30 | a successful update changes only the entry of its slot, or appends one entry when the slot is new |
| Menu.MealKeepsSlotsUnique | backend/controllers/menuController.js:17-30 | every slot keeps at most one entry |
| Menu.MealIdempotent | backend/controllers/menuController.js:14-33 | sending the same meal plan twice leaves what sending it once left |
| Menu.MenuStore.constructor | backend/models/Menu.js:9-25 | the weekly menu starts empty |
| Menu.MenuStore.UpdateMeal | backend/controllers/menuController.js:14-33 | answers MealOutcome and leaves the menu as AfterMeal of the old one; slots and ids stay unique |
| Menu.AfterMeal | backend/controllers/menuController.js:16-30 | a refused request leaves the menu unchanged; an accepted entry is in it, adding an entry exactly when the day and meal had none; every other entry keeps its place |
| Payments.ParseStatus | backend/models/Payment.js:22-27 | the status enum accepts exactly Paid, Partial and Unpaid and yields the one named |
| Payments.ParseMethod | backend/models/Payment.js:32-36 | the method enum accepts exactly Cash, Online, UPI and "Bank Transfer" and yields the one named |
| Payments.NumberOf | backend/controllers/paymentController.js:22-24 | `Number(x)` is a number exactly for a numeric field, NaN otherwise |
| Payments.AddOutcome | backend/controllers/paymentController.js:16-35 | recorded exactly when the student, a numeric amount, the month and a numeric year are given and status and method are absent or in their enums, with status Paid and method Cash by default and the payment date now; every failure is 500 "Error recording payment" |
| Payments.AllPayments | backend/controllers/paymentController.js:7 | every payment exactly once, latest payment date first |
| Payments.MyPayments | backend/controllers/paymentController.js:41 | exactly the student's own payments, each as often as it is stored, latest payment date first |
| Payments.RecordedPaymentListed | backend/controllers/paymentController.js:16-45 | a recorded payment appears both in the admin listing and in its student's own listing |
| Payments.PaymentStore.constructor | backend/models/Payment.js:3-40 | the collection starts empty |
| Payments.PaymentStore.Add | backend/controllers/paymentController.js:16-35 | answers AddOutcome; a recorded payment is appended, a failure changes nothing |
| ExpenseTracker.TotalExpenses | frontend/src/pages/ExpenseTracker.jsx:98 | the reduce starts from 0, so no expenses total 0 (its other properties are ChartData's and MonthSplitsTotal's) |
| ExpenseTracker.NamedIsCategory | frontend/src/pages/ExpenseTracker.jsx:13 | the category names are distinct, so testing by name selects exactly that category's expenses |
| ExpenseTracker.ChartData | frontend/src/pages/ExpenseTracker.jsx:60-64 | one slice per category met, in first-met order, each worth that category's total, and the slices add up to the overall total |
| ExpenseTracker.Slices | frontend/src/pages/ExpenseTracker.jsx:63 | the `map` over the keys gives one `{ name, value }` per key, in order, summing to the dictionary's values over those keys |
| ExpenseTracker.FilteredExpenses | frontend/src/pages/ExpenseTracker.jsx:94-96 | under "All" every expense; otherwise exactly the expenses whose category is the one chosen |
| ExpenseTracker.FilteredKeepsOrder | frontend/src/pages/ExpenseTracker.jsx:94-96 | the filtered list keeps the table's order |
| ExpenseTracker.SubsequenceOfItself | frontend/src/pages/ExpenseTracker.jsx:94-95 | the unfiltered list is the table itself |
| ExpenseTracker.FilteredTotalIsSlice | frontend/src/pages/ExpenseTracker.jsx:60-64 | the amounts of the list filtered by a category add up to that category's pie slice |
| ExpenseTracker.ThisMonth | frontend/src/pages/ExpenseTracker.jsx:99 | exactly the expenses whose month is the current month |
| ExpenseTracker.MonthSplitsTotal | frontend/src/pages/ExpenseTracker.jsx:98-100 | this month's total plus the other months' total is the overall total |
| FeedbackAnalyticsView.RowOf | frontend/src/pages/FeedbackAnalytics.jsx:50-56 | a day's chart row is labelled with the day's first three letters and has exactly the three meals as keys, each holding that meal's cell |
| FeedbackAnalyticsView.BuildRow | frontend/src/pages/FeedbackAnalytics.jsx:51-56 | the `MEALS.forEach` loop fills the row described by RowOf |
| FeedbackAnalyticsView.FilledRow | frontend/src/pages/FeedbackAnalytics.jsx:51-56 | a dictionary holding exactly the three meals, each with its cell, is that day's row |
| FeedbackAnalyticsView.ChartData | frontend/src/pages/FeedbackAnalytics.jsx:50-57 | seven rows, the i-th being the row of the i-th day from Monday |
| FeedbackAnalyticsView.ChartLabels | frontend/src/pages/FeedbackAnalytics.jsx:56 | the labels are Mon to Sun in order |
| FeedbackAnalyticsView.CellFromEntry | frontend/src/pages/FeedbackAnalytics.jsx:53-54 | when `find` succeeds the meal has feedback and the cell is that meal's average rating |
| FeedbackAnalyticsView.EntryForFeedback | frontend/src/pages/FeedbackAnalytics.jsx:53 | a meal with feedback always has an entry for `find` to find |
| FeedbackAnalyticsView.CellIsSlotAverage | frontend/src/pages/FeedbackAnalytics.jsx:53-54 | each cell is the mean rating of that day and meal, and 0 when it has no feedback |
| FeedbackAnalyticsView.EmptyChart | frontend/src/pages/FeedbackAnalytics.jsx:53-54 | before the analytics arrive every cell is 0 |
| FeedbackAnalyticsView.BuildParams | frontend/src/pages/FeedbackAnalytics.jsx:37-39 | the query has a `day` parameter exactly when a day is chosen and a `mealType` one exactly when a meal is chosen, with those values, and no empty one |
| FeedbackAnalyticsView.TopRated | frontend/src/pages/FeedbackAnalytics.jsx:123 | the first five per-meal entries, or all of them when there are fewer |
| FeedbackAnalyticsView.TopRatedAreBest | frontend/src/pages/FeedbackAnalytics.jsx:123 | no meal left out of the top list has a higher average than one shown |
| GroceryCalculator.ScaledIsProduct | frontend/src/pages/GroceryCalculator.jsx:46 | the n-fold addition used for each row is the product `quantityPerStudent * activeCount` |
| GroceryCalculator.ScaledAdd | frontend/src/pages/GroceryCalculator.jsx:46 | scaling distributes over a sum of quantities |
| GroceryCalculator.ScaledZero | frontend/src/pages/GroceryCalculator.jsx:46 | a zero quantity scales to zero |
| GroceryCalculator.Multiply | frontend/src/pages/GroceryCalculator.jsx:46 | the multiplication yields the scaled quantity |
| GroceryCalculator.ActiveCount | frontend/src/pages/GroceryCalculator.jsx:40 | the number of students whose status is Active, at most the roster's size |
| GroceryCalculator.RosterActiveCount | frontend/src/pages/GroceryCalculator.jsx:24-40 | the active count the calculator takes from the getStudents response is the number of stored students whose status is Active |
| GroceryCalculator.RowsFor | frontend/src/pages/GroceryCalculator.jsx:49 | one row per key asked for |
| GroceryCalculator.RowsForAt | frontend/src/pages/GroceryCalculator.jsx:49 | the i-th row is the row of the i-th key |
| GroceryCalculator.Requirements | frontend/src/pages/GroceryCalculator.jsx:41-49 | `Object.values(totals)` has one row per distinct `name-unit` key |
| GroceryCalculator.RequirementAt | frontend/src/pages/GroceryCalculator.jsx:41-49 | the i-th row belongs to the i-th key in first-seen order: the first ingredient's name and unit and the summed need of every ingredient with that key |
| GroceryCalculator.KeyPresent | frontend/src/pages/GroceryCalculator.jsx:44-45 | every key listed is carried by some ingredient |
| GroceryCalculator.IndexOf | frontend/src/pages/GroceryCalculator.jsx:45 | the lookup `totals[key]` finds the key's position, and -1 exactly when the key is new |
| GroceryCalculator.CalculateTotal | frontend/src/pages/GroceryCalculator.jsx:36-49 | the nested `forEach` loops produce exactly the requirements of the flattened menu with each quantity multiplied by the number of active students |
| GroceryCalculator.AddMeal | frontend/src/pages/GroceryCalculator.jsx:42-47 | one meal's ingredients extend the keys and rows to those of everything seen so far plus that meal |
| GroceryCalculator.AddIngredient | frontend/src/pages/GroceryCalculator.jsx:43-47 | one ingredient either opens a row at 0 for a new key and adds to it, or adds its need to the existing row |
| GroceryCalculator.AppendNext | frontend/src/pages/GroceryCalculator.jsx:43 | the inner loop visits the ingredients in order |
| GroceryCalculator.AbsorbNew | frontend/src/pages/GroceryCalculator.jsx:45-46 | a new row opened at 0 and then increased is the requirement row of the new key |
| GroceryCalculator.KeysStep | frontend/src/pages/GroceryCalculator.jsx:44-45 | a known key keeps the key list, a new one is appended to it |
| GroceryCalculator.RowStep | frontend/src/pages/GroceryCalculator.jsx:46 | an ingredient adds its need to its own key's row and leaves other rows unchanged |
| GroceryCalculator.RowStepFresh | frontend/src/pages/GroceryCalculator.jsx:45-46 | the first ingredient with a key makes a row with its name, its unit and 0 plus its need |
| GroceryCalculator.RowsStepKnownAt | frontend/src/pages/GroceryCalculator.jsx:46 | for a known key only that key's row grows, by the ingredient's need |
| GroceryCalculator.RowsStepKnown | frontend/src/pages/GroceryCalculator.jsx:46 | updating the known key's row in place gives the requirements with the ingredient added |
| GroceryCalculator.RowsStepOld | frontend/src/pages/GroceryCalculator.jsx:45 | a new key leaves the earlier rows unchanged and is appended to the keys |
| GroceryCalculator.RowsStepNew | frontend/src/pages/GroceryCalculator.jsx:45-46 | a new key appends exactly one row after the existing ones |
| GroceryCalculator.SumNeeded | frontend/src/pages/GroceryCalculator.jsx:46 | summing the scaled quantities is scaling their sum |
| GroceryCalculator.RowTotal | frontend/src/pages/GroceryCalculator.jsx:41-47 | a row's total is the sum of its ingredients' per-student quantities times the active count, and the row's own name and unit give back its key |
| GroceryCalculator.NoActiveNoNeed | frontend/src/pages/GroceryCalculator.jsx:40-46 | with no active student every total is 0 |
| GroceryCalculator.KeysCollide | frontend/src/pages/GroceryCalculator.jsx:44 | the `name-unit` key is ambiguous: "a-b" in "c" and "a" in "b-c" merge into one row, named after the first |
| GroceryCalculator.Volume | frontend/src/pages/GroceryCalculator.jsx:160-161 | the badge says "Sufficient" exactly when the total exceeds 10, "Low Volume" otherwise |
| MealRatingsView.MealOrder | frontend/src/pages/MealRatings.jsx:54 | `mealOrders` has a rank below 3 exactly for the three meal names, and the rank names that meal |
| MealRatingsView.SortedMeals | frontend/src/pages/MealRatings.jsx:50-56 | the sorted list is a permutation of the per-meal entries, ordered by the comparator's rank |
| MealRatingsView.RankOrdersSlots | frontend/src/pages/MealRatings.jsx:51-55 | a lower rank means an earlier day, or the same day and an earlier or equal meal |
| MealRatingsView.SortedMealsByDayThenMeal | frontend/src/pages/MealRatings.jsx:48-56 | the table lists entries in calendar day order (Monday first), then Breakfast, Lunch, Dinner, and holds exactly the per-meal entries |
| MealRatingsView.BestMeals | frontend/src/pages/MealRatings.jsx:58 | at most three entries, highest first, taken from the meals rated 4 or more with none more often than it occurs there; when at most three meals are rated 4 or more, exactly those |
| MealRatingsView.WorstMeals | frontend/src/pages/MealRatings.jsx:59 | at most three entries, lowest first, taken from the meals rated 3 or less with none more often than it occurs there; when at most three meals are rated 3 or less, exactly those |
| MealRatingsView.BestMealsAreTheBest | frontend/src/pages/MealRatings.jsx:58 | a meal rated 4 or more is left out only when three meals rated at least as high are shown |
| MealRatingsView.WorstMealsAreTheWorst | frontend/src/pages/MealRatings.jsx:59 | a meal rated 3 or less is left out only when three meals rated at most as low are shown |
| MealRatingsView.MiddleMealsInNeither | frontend/src/pages/MealRatings.jsx:58-59 | a meal rated strictly between 3 and 4 is in neither list, and no meal is in both |
| MealRatingsView.StatusLabel | frontend/src/pages/MealRatings.jsx:194-195 | "Popular" exactly from 4, "Average" exactly from 3 up to 4, "Below Average" exactly below 3 |
| MealRatingsView.ListsAgreeWithLabels | frontend/src/pages/MealRatings.jsx:58-59 | every best meal is labelled Popular and no worst meal is |
| MenuEditor.RowObject.constructor | frontend/src/pages/MenuManagement.jsx:46 | a new row object holds the name, quantity and unit it is built with |
| MenuEditor.Values | frontend/src/pages/MenuManagement.jsx:63-64 | the rows sent on save are the current field values of the row objects, one per object, in order |
| MenuEditor.AddIngredient | frontend/src/pages/MenuManagement.jsx:45-47 | a new list: the old row objects followed by one fresh blank row (empty name, 0, "kg"); no object is shared twice |
| MenuEditor.EditedChangesOneField | frontend/src/pages/MenuManagement.jsx:51 | an edit writes exactly the field it names and leaves the other two |
| MenuEditor.UpdateIngredient | frontend/src/pages/MenuManagement.jsx:49-53 | the shallow copy holds the same row objects; the edited object changes in place, so the previous state sees the edit too; every other object is unchanged, and with distinct objects the values are the old ones with that position edited |
| MenuEditor.KeepOthersOutside | frontend/src/pages/MenuManagement.jsx:56 | the filter keeps every element when the index to drop is not among the positions |
| MenuEditor.KeepOthersInside | frontend/src/pages/MenuManagement.jsx:56 | the filter drops exactly the element at the index |
| MenuEditor.RemoveIngredient | frontend/src/pages/MenuManagement.jsx:55-57 | removing a valid index drops exactly that row, shortening the list by one; an index outside the list changes nothing |
| MenuEditor.ValuesOfRemoved | frontend/src/pages/MenuManagement.jsx:55-57 | the values of the list after removal are the old values without that position |
| MenuEditor.TotalQty | frontend/src/pages/MenuManagement.jsx:77 | the total is a number exactly when no row's quantity is non-numeric, and then it is the sum of the numeric quantities, empty inputs counting 0 |
| MenuEditor.AddedKeepsTotal | frontend/src/pages/MenuManagement.jsx:45-47 | adding a blank row leaves the total unchanged |
| MenuEditor.SumAround | frontend/src/pages/MenuManagement.jsx:77 | the total splits into the rows before a position, that row, and the rows after |
| MenuEditor.RemovedSubtractsRow | frontend/src/pages/MenuManagement.jsx:55-57 | removing a row lowers a numeric total by exactly that row's quantity |
| MenuEditor.SumWithout | frontend/src/pages/MenuManagement.jsx:77 | the sum without one row is the full sum less that row |
| MenuEditor.EditedTotal | frontend/src/pages/MenuManagement.jsx:49-53 | editing a name or unit keeps the total; editing a quantity replaces that row's share of it; a non-numeric quantity makes it NaN |
| MenuEditor.HasCurrentMenu | frontend/src/pages/MenuManagement.jsx:74-75 | true exactly when some entry is for that day and meal and names some dishes |
| MenuEditor.NoMealServed | frontend/src/pages/MenuManagement.jsx:74-75 | no meal of a day has a current menu exactly when every entry of that day has no dishes |
| MenuEditor.DayBadgeCount | frontend/src/pages/MenuManagement.jsx:94 | the badge is the number of the day's three meals with a current menu: at most 3, 0 exactly when no entry of that day has dishes, 3 exactly when all three meals have one |
| NotificationBell.Elapsed | frontend/src/components/NotificationBell.jsx:15-23 | "just now" exactly under a minute, minutes exactly under an hour, hours exactly under a day, days otherwise, each count being the whole number of units elapsed (floor division) |
| NotificationBell.TimeAgo | frontend/src/components/NotificationBell.jsx:15-23 | "just now" exactly under a minute; otherwise the elapsed minutes, hours or days, each floored, in the largest unit that fits, followed by " min ago", " hr ago" or "d ago" |
| NotificationBell.ElapsedMonotone | frontend/src/components/NotificationBell.jsx:15-23 | a later moment never shows a smaller count in the same unit, and "just now" later means "just now" earlier |
| NotificationBell.UnreadCount | frontend/src/components/NotificationBell.jsx:71 | at most the number of notifications, and 0 exactly when all are read |
| NotificationBell.BadgeCountsListing | frontend/src/components/NotificationBell.jsx:71 | the badge never exceeds the 50 listed, and with 50 or fewer notifications it is the number unread in the collection |
| NotificationBell.ReadAll | frontend/src/components/NotificationBell.jsx:76 | `{ ...n, read: true }` marks the copy read and keeps everything else |
| NotificationBell.AfterMarkRead | frontend/src/components/NotificationBell.jsx:80-85 | after a successful request only the notifications with that id become read; after a failure nothing changes |
| NotificationBell.AfterMarkAllRead | frontend/src/components/NotificationBell.jsx:73-78 | after a successful request every notification is read; after a failure nothing changes |
| NotificationBell.AfterDismiss | frontend/src/components/NotificationBell.jsx:87-93 | after a successful request exactly the notifications without that id remain; after a failure nothing changes |
| NotificationBell.BadgeAfterMarking | frontend/src/components/NotificationBell.jsx:71-85 | marking all read clears the badge; marking one read lowers it by the unread notifications with that id |
| NotificationBell.Click | frontend/src/components/NotificationBell.jsx:95-102 | an unread notification is marked read first; complaint and suggestion notifications close the dropdown and go to /complaints, others leave it as it was |
| NotificationBell.ListingMap | backend/controllers/adminNotificationController.js:6-8 | applying a change that keeps creation times to every notification commutes with the newest-50 listing |
| NotificationBell.MarkReadMatchesServer | frontend/src/components/NotificationBell.jsx:83 | the bell's local update after marking one read is the listing the server then returns |
| NotificationBell.MarkAllReadMatchesServer | frontend/src/components/NotificationBell.jsx:76 | the bell's local update after marking all read is the listing the server then returns |
| NotificationBell.DismissMatchesServer | frontend/src/components/NotificationBell.jsx:91 | with at most 50 notifications, the bell's local update after a dismissal is the listing the server then returns |
| PaymentManagement.FilteredPayments | frontend/src/pages/PaymentManagement.jsx:131-136 | the filter throws (no list) exactly when some payment's student was deleted; otherwise it keeps exactly the payments whose student matches the search by name or roll number and whose status matches the filter |
| PaymentManagement.FilteredKeepsOrder | frontend/src/pages/PaymentManagement.jsx:131-136 | the filtered list keeps the table's order |
| PaymentManagement.EmptySearchShowsAll | frontend/src/pages/PaymentManagement.jsx:131-136 | with an empty search and status "All", every payment is shown |
| PaymentManagement.TotalCollected | frontend/src/pages/PaymentManagement.jsx:138 | the reduce starts from 0, so no payments total 0 (its other properties are TotalSplitsByMonth's) |
| PaymentManagement.MonthTotal | frontend/src/pages/PaymentManagement.jsx:139-140 | a month in which no payment falls totals 0 |
| PaymentManagement.FilterDropsAllSum | frontend/src/pages/PaymentManagement.jsx:139-140 | a filter that keeps nothing sums to 0 |
| PaymentManagement.TotalSplitsByMonth | frontend/src/pages/PaymentManagement.jsx:138-140 | this month's total plus the other months' is the total collected |
| PaymentManagement.MonthTotalIgnoresYear | frontend/src/pages/PaymentManagement.jsx:139 | the month test ignores the year: changing payments' years does not change the month total |
| PaymentManagement.MonthTotalExample | frontend/src/pages/PaymentManagement.jsx:138-140 | an Unpaid payment for March of another year counts both in "collected" and in March's total |
| StudentManagement.FilteredStudents | frontend/src/pages/StudentManagement.jsx:89-93 | exactly the students whose lower-cased name contains the lower-cased search or whose roll number contains it, and whose status matches the filter ("All" matches every status) |
| StudentManagement.FilteredKeepsOrder | frontend/src/pages/StudentManagement.jsx:89-93 | the filtered list keeps the roster's order |
| StudentManagement.EmptySearchShowsAll | frontend/src/pages/StudentManagement.jsx:89-93 | an empty search with "All" shows the whole roster |
| StudentManagement.InactiveCount | frontend/src/pages/StudentManagement.jsx:96 | at most the roster's size, and 0 exactly when every student is Active |
| StudentManagement.PillsAddUp | frontend/src/pages/StudentManagement.jsx:95-96 | the active and inactive pills add up to the roster's size |
| StudentManagement.PillCountsMatchLists | frontend/src/pages/StudentManagement.jsx:89-96 | each pill equals the length of the list shown by filtering on that status with no search |
| StudentManagement.EditForm | frontend/src/pages/StudentManagement.jsx:46-52 | the edit form is filled from the student, with "" for a missing phone or email, and an empty password |
| StudentManagement.Payload | frontend/src/pages/StudentManagement.jsx:62-63 | the request copies the form and drops the password field exactly when it is empty |
| StudentManagement.Received | backend/controllers/studentController.js:57 | an absent or empty password or status reads as falsy on the server |
| StudentManagement.BlankPasswordKeepsPassword | frontend/src/pages/StudentManagement.jsx:61-64 | saving the edit form with the password left blank sends no password and keeps the stored hash |
| StudentManagement.UntouchedEditKeepsStudent | frontend/src/pages/StudentManagement.jsx:46-64 | saving the edit form unchanged leaves the student exactly as stored |
| StudentDashboard.JsWeekday | frontend/src/pages/StudentDashboard.jsx:128 | `getDay()` numbers the days 0 to 6, Sunday being 0 |
| StudentDashboard.TodayIndex | frontend/src/pages/StudentDashboard.jsx:128-129 | the mapping `jsDay === 0 ? 6 : jsDay - 1` picks the entry of the Monday-first list that is that weekday |
| StudentDashboard.TodayOfWeekday | frontend/src/pages/StudentDashboard.jsx:128-129 | on every weekday the dashboard opens on that day's name |
| StudentDashboard.DashboardUnread | frontend/src/pages/StudentDashboard.jsx:110 | at most the feed's length, and 0 exactly when every feed item is read |
| StudentDashboard.DashboardUnreadIsVisibleUnread | frontend/src/pages/StudentDashboard.jsx:107-111 | the dashboard's own count is the number of visible notifications the student has not read |
| StudentDashboard.BadgeOf | frontend/src/pages/StudentDashboard.jsx:279-281 | hidden exactly at 0; "9+" exactly above 9; the digit itself from 1 to 9 |
| StudentDashboard.BadgeExactUpToNine | frontend/src/pages/StudentDashboard.jsx:279-281 | equal badges mean equal counts up to 9, and both counts above 9 or neither |
| StudentDashboard.BadgeAfterMarkAllRead | frontend/src/pages/StudentDashboard.jsx:236-239 | after "mark all read" and the refetch the badge is hidden |
| StudentDashboard.GetMyFb | frontend/src/pages/StudentDashboard.jsx:144 | finds one of the student's records for that day and meal, and nothing exactly when there is none |
| StudentDashboard.Prefill | frontend/src/pages/StudentDashboard.jsx:199-205 | a fresh dialog starts at rating 0, no reaction and an empty comment; a reopened one shows the saved rating, reaction and comment |
| StudentDashboard.PressLike | frontend/src/pages/StudentDashboard.jsx:823 | pressing "Liked it" clears a like and otherwise sets liked |
| StudentDashboard.PressDislike | frontend/src/pages/StudentDashboard.jsx:829 | pressing "Didn't like" clears a dislike and otherwise sets disliked |
| StudentDashboard.ToggleLaws | frontend/src/pages/StudentDashboard.jsx:823-829 | pressing the same button twice returns to no reaction (or keeps it set), and pressing the other button always switches to it |
| StudentDashboard.Submit | frontend/src/pages/StudentDashboard.jsx:207-217 | without a rating the student is asked to pick one; otherwise the request carries the dialog's day, meal, rating, reaction and comment |
| StudentDashboard.SubmitAgreesWithServer | backend/controllers/feedbackController.js:9-14 | a rating from 1 to 5 is sent and accepted by the server, and the page stops exactly the submissions the server would refuse as missing a rating |
| StudentDashboard.FreshDialogNeedsRating | frontend/src/pages/StudentDashboard.jsx:199-208 | a dialog opened for a meal with no feedback cannot be sent without picking a rating |
| StudentDashboard.ReopenShowsSaved | frontend/src/pages/StudentDashboard.jsx:199-218 | after a saved submission and the refetch, reopening that meal's dialog shows the rating, reaction and trimmed comment just saved |
| StudentDashboard.FindsStored | frontend/src/pages/StudentDashboard.jsx:144 | in a collection with one record per student, day and meal, the dashboard's lookup for a slot returns the stored record of that slot |
| Notifications.NotificationStore.Add | backend/controllers/complaintController.js:101 | a new document with a fresh id is appended and the collection keeps unique ids and duplicate-free readers |
| Week.ParseDay | backend/models/Feedback.js:6 | accepts exactly the seven weekday names of the schema enum, and the accepted day prints back as the input |
| Week.ParseMeal | backend/models/Feedback.js:7 | accepts exactly "Breakfast", "Lunch" and "Dinner", and the accepted meal prints back as the input |
| Week.DayIndex | frontend/src/pages/MealRatings.jsx:49-52 | `indexOf` in the Monday-first list: the position of the named day, and -1 exactly for a string that is not a weekday name |
| Week.MealIndex | frontend/src/pages/StudentDashboard.jsx:18 | the meal's position in the Breakfast, Lunch, Dinner list |
| Week.DayNameInjective | backend/models/Feedback.js:6 | distinct days have distinct names |
| Sorting.SortBy | backend/controllers/notificationController.js:34 | `.sort(...)` returns the same documents, as a permutation, ordered by the key |
| Sorting.SortByMembers | backend/controllers/notificationController.js:34 | sorting neither adds nor drops a document |
| Sorting.Limit | backend/controllers/adminNotificationController.js:7-8 | `.limit(n)` keeps the first n documents, or all of them when there are fewer |
| Sorting.LimitSorted | backend/controllers/adminNotificationController.js:7-8 | limiting a sorted listing leaves it sorted |

## Left out

- Request bodies: every body field is taken as a string (or the `Option`/`NumberInput` forms where the code reads a number), so a JSON number, array or object in a text field cannot be sent. Two effects this leaves out: `createStudent` with a numeric `password` such as `12` passes the check of `backend/controllers/studentController.js:19` (`(12).length < 4` is false) and stores the two-character password, where `Students.CreateOutcome` answers 400 for `"12"`; and `submitComplaint` with a numeric `description` throws at `description.trim()` (`backend/controllers/complaintController.js:14`) and answers 500.
- The model is sequential. It has no MongoDB or Mongoose query engine, no I/O and no concurrency. In particular, it does not capture the read-modify-write race of the grocery upsert, or the two separate writes of the complaint handlers (document, then notification), either of which may fail alone.
- bcrypt hashing (`Student.js` pre-save hook, `matchPassword`), `generateToken` and `jwt.verify` are parameters of the model. Their cryptographic behaviour is not modelled. `backend/models/Admin.js` is not part of this model; the admin's password check is a parameter too.
- `populate` is modelled as an input. The complaint update takes whether the complaint's student still exists (`studentFound`); when it does not, the populated `student` path is null and the save fails, so the answer is 500. Complaint submission takes the student's name from the roster. The joined fields that the listings return are not modelled. Mongoose's validation messages are collapsed to a status code and a fixed message.
- String lengths are UTF-16 code units (`Base.JsLength`) wherever the source compares `.length` or the schema has a `maxlength`. Characters are whole Unicode code points, so a string cannot hold a lone surrogate.
- Complaints.NoteBody: when the 120-unit cut of `substring(0, 120)` falls inside a surrogate pair, JavaScript keeps the lone high surrogate. The model's preview stops before the pair, one unit shorter.
- Grocery.StockOutcome: for a new item, an empty-string or `null` quantity or alert level is cast to null and stored as null. The model writes such a field as `Missing` and stores the schema default (0 or 5). For an existing item, `Number` reads both as 0, written `Num(0.0)`.
- `toFixed`, `parseFloat` and other floating-point rounding are not modelled: quantities, amounts and averages are exact `real`s.
- In the meal-ratings page, sorting by an unknown meal type gives `NaN` in JavaScript. The model orders it as meal 0.
- `timeAgo` of an invalid date is not modelled: timestamps are integers.
- Polling intervals, axios calls, navigation, toasts, `alert`, `localStorage`/`sessionStorage`, charts and PDF export are left out.
- The clock, `startOfDay` and the locale are parameters. ExpenseTracker's `getMonthlyTrend` (`frontend/src/pages/ExpenseTracker.jsx:66-73`) is left out because it keys on locale month names.
- `NotificationBell.DismissMatchesServer` is proved only for listings of at most 50 documents, the size the admin listing is limited to.
- The student-management page's add-student dialog is left out.
- Several parts of the student dashboard are left out: the complaint and payment tabs, `getMeal` (`frontend/src/pages/StudentDashboard.jsx:143`), and the refetch after `markRead`/`markAllRead` (`frontend/src/pages/StudentDashboard.jsx:232-239`). Those handlers only call the server and reload; the server side is modelled in `Notifications`.
- The integer-key-first ordering of `Object.keys` is not modelled: grouped results are listed in first-seen order.
- `getGroceries` and `getFullMenu` return the whole collection unchanged, and are not modelled as separate members. The `current` selection of the menu page's `fetchMenu` (`frontend/src/pages/MenuManagement.jsx:35-37`) is not modelled.
- The supplier and expense controllers, the route files and `server.js` are wiring or pass-through create/list, and are not part of this model.
- ExpenseTracker.TotalExpenses: its own contract states only that the empty list sums to 0. Its additivity and its relation to the category breakdown are stated in the lemmas beside it.
- PaymentManagement.TotalCollected: its own contract states only the empty case. Its other properties are stated in the lemmas beside it: every payment counts whatever its status (MonthTotalExample), and the total splits into this month and the rest (TotalSplitsByMonth).
- Base.Lower: lowers only the ASCII letters A–Z. JavaScript's `toLowerCase` also lowers other Unicode letters (É, Σ and so on), so Admins.LoginEmail and the search filters of the student-management page (`frontend/src/pages/StudentManagement.jsx:90`) and the payment-management page (`frontend/src/pages/PaymentManagement.jsx:132`) differ from the source on such input.
- Malformed ObjectIds are not modelled: an `Id` is a number. In the source, `findById` and the other by-id queries throw a CastError on a string that is not an ObjectId, and the handlers then answer 500. The model's by-id handlers answer only "found" or 404.
- Admins.RegisterCaseVariant: `backend/models/Admin.js` is not part of this model. The lemma, Admins.RegisterOutcome and Admins.MixedCaseEmailNeverLogsIn assume the schema stores the email as sent, with no lowercase setter. With such a setter, no stored email would hold an upper-case letter, and a registration that differs only in case could be refused as a duplicate.

## Findings

| source | as written | input that shows it | evidently intended | confidence | as-written member | corrected member |
|---|---|---|---|---|---|---|
| backend/controllers/notificationController.js:120-123 | `getUnreadCount` counts every active notification the student has not read, including personal notifications addressed to other students | one active notification with `student` = student 2 and empty `readBy`: student 1's count is 1, but student 1's feed is empty | count only the notifications visible to the student (broadcast or addressed to them), as the feed and the dashboard badge do | high, not executed | Notifications.UnreadCountCountsOthersPersonal | Notifications.FeedUnreadIsVisibleUnread |
