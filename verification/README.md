# WhatsApp-clone core in Dafny

This project models the core of a WhatsApp-style chat application. The core has three parts:

- an Express/MongoDB REST server: users, one-time passwords, chats, messages, contacts and uploads;
- a Socket.io relay for presence, typing, delivery and read receipts, and video-call signalling;
- a React client: zustand stores, the chat list, the chat room, the message and OTP inputs, formatting helpers and the demo "encryption" built on `btoa`/`atob`.

The model is split into one Dafny module per source file or component:

- **Server models.** `UserModel`, `ChatModel`, `MessageModel` and `OtpModel` cover the mongoose schemas. That means defaults, setters, validators and the pre- and post-save hooks, with the error messages mongoose would produce.
- **Database.** `Db` is an in-memory database: each collection is a sequence kept in insertion order. `findOne` is the first match, and "newest first" is the reverse of insertion order.
- **Request handlers.** `AuthController`, `OtpController`, `ChatController`, `MessageController`, `UserController` and `ContactController` are pure functions from a store and a request to a new store and a response. The response carries the HTTP status and the JSON `success`/`message` shape.
- **Middleware.** `AuthMiddleware` covers bearer-token extraction and the `protect` guard. `UploadMiddleware` covers the MIME filter and the size limit.
- **Relay.** `SocketRelay` is a state machine over the connections, the online map, the store and an outbox of emitted events.
- **Client stores.** `AuthStore` and `ChatStore` are the two zustand stores written as reducers. `ClientSocket` is the client's outbox of socket emits.
- **Client components.** `ChatList`, `ChatRoom`, `MessageInput` and `OtpInput` are event-driven components, and each handler or timer firing is modelled as one atomic transition. For `ChatRoom` and `MessageInput` a `Step` applies one event and a `Run` folds a sequence of them. An `Invariant` is proved to hold across every run with the corrected chat switch. For `ChatRoom` it is also proved for the switch as written, while for `MessageInput` the written switch breaks it (see "## Findings").
- **Client libraries.** `ClientUtils` covers the formatting helpers. `Encryption` and `Base64` cover the demo cipher and the browser's `btoa`/`atob` as specified by RFC 4648 (section 4) and the forgiving-base64 algorithm of the WHATWG Infra standard (section 4.7).
- **Shared modules.** `Common` holds Option/Response and list helpers. `Text` holds JavaScript's `trim`, `split` and `parseInt`, and a case mapping restricted to the ASCII letters.

Everything outside the program is a parameter of the operation that uses it:

- bcrypt (a hash function and a comparison);
- JWT signing and verification;
- the clock;
- fresh document ids;
- the OTP generator, the RSA key generator and the Cloudinary URL;
- MongoDB's `$regex` matcher (a predicate over the field and the pattern);
- mongoose's `strictQuery` setting.

## Model

| member | source | states |
|---|---|---|
| UserModel.New | server/src/models/User.ts:24-95 | A new user document has a trimmed name, a trimmed e-mail with its ASCII letters lower-cased, the password as given (not yet hashed), an empty avatar, the default bio, and is offline and phone-unverified, with `lastSeen` set to the creation time |
| UserModel.ErrorsIffInvalid | server/src/models/User.ts:26-70 | The schema validators report no error exactly when the user is valid: name of 2–50 characters, e-mail matching the pattern, a newly set password of at least 6 characters, bio of at most 150 characters, and both keys present |
| UserModel.Save | server/src/models/User.ts:98-108 | Saving succeeds exactly for valid users, and a rejection carries mongoose's validation message. Only a password set since the last save is hashed, and no other field changes |
| UserModel.SaveKeepsUnmodifiedHash | server/src/models/User.ts:98-100 | Saving an already-saved user again changes nothing, and a stored hash is never hashed a second time |
| UserModel.ToJson | server/src/models/User.ts:122-127 | The JSON form of a user never contains `password` or `privateKey`, and every other field keeps its value |
| UserModel.Project | server/src/models/User.ts:41-70 | A field projection returns exactly the selected fields plus `_id`. `password` and `privateKey` appear only when explicitly selected |
| ChatModel.NormaliseGroupName | server/src/models/Chat.ts:28-32 | The stored group name is the trimmed request value, and it is absent exactly when none was given |
| ChatModel.New | server/src/models/Chat.ts:15-49 | `Chat.create` keeps the participants and the admin, defaults `isGroupChat` to false and the avatar to the empty string, and has no last message |
| ChatModel.SaveError | server/src/models/Chat.ts:28-69 | A chat saves exactly when it is saveable: a group name of at most 50 characters, and then either a group with a non-empty name, at least 2 participants and an admin, or a direct chat with exactly 2 participants. A refusal reports the first failed check in source order |
| ChatModel.BlankGroupNameRejected | server/src/models/Chat.ts:28-55 | A group name of only white space is stored empty after trimming, so the save is refused with "Group name is required for group chats" |
| MessageModel.ParseStatus | server/src/models/Message.ts:3-7 | The status validator accepts exactly "sent", "delivered" and "seen", each naming its own status |
| MessageModel.StatusNameParses | server/src/models/Message.ts:68-72 | Every status's stored name is accepted back as that same status |
| MessageModel.ParseType | server/src/models/Message.ts:9-15 | The type validator accepts exactly the five message type names |
| MessageModel.TypeNameParses | server/src/models/Message.ts:63-67 | Every message type's stored name is accepted back as that same type |
| MessageModel.Create | server/src/models/Message.ts:42-116 | `Message.create` fails exactly when the given type is outside the enumeration. Otherwise defaults apply: content "", type text, status sent, no receipts, not edited, not deleted, deleted for nobody |
| MessageModel.ReceiptCountPositive | server/src/models/Message.ts:73-84 | A user has a receipt in `readBy` exactly when their receipt count is positive |
| MessageModel.ReceiptCountAppend | server/src/models/Message.ts:73-84 | The receipt count of two concatenated receipt lists is the sum of their counts |
| MessageModel.AddReader | server/src/socket/handlers.ts:287-296 | After the reader is added, they have a receipt. A reader who had one is unchanged; otherwise exactly one receipt stamped now is appended |
| MessageModel.AddReaderCount | server/src/socket/handlers.ts:287-296 | Adding a reader leaves them with exactly one receipt when they had none, and with their old count otherwise |
| MessageModel.AddReaderIdempotent | server/src/socket/handlers.ts:287-296 | Adding the same reader twice, at any two times, is the same as adding them once |
| MessageModel.LastMessageHook | server/src/models/Message.ts:123-133 | After every save, the message's own chat points its `lastMessage` at the message. Every other chat, and every chat when the id is unknown, stays as it was |
| OtpModel.NormaliseEmail | server/src/models/OTP.ts:15-19 | A normalised e-mail is no longer than the input and contains no upper-case ASCII letter |
| OtpModel.NormaliseOpt | server/src/models/OTP.ts:15-23 | A setter applies to a field exactly when the field is present |
| OtpModel.FieldErrors | server/src/models/OTP.ts:24-32 | The OTP validators report nothing exactly when the code is non-empty and the type is "email" or "phone" |
| OtpModel.Create | server/src/models/OTP.ts:13-58 | `OTP.create` succeeds exactly when the validators pass and the normalised e-mail or phone is non-empty. A new record is unverified and expires ten minutes after creation |
| OtpModel.FreshOtpLiveForTenMinutes | server/src/models/OTP.ts:37-41 | A fresh record is live at a later time exactly when less than 600000 ms have passed since creation |
| Common.FindFirst | server/src/controllers/auth.controller.ts:47-52 | `findOne` returns the first matching document in natural order, or nothing exactly when no document matches |
| Common.Filter | server/src/controllers/message.controller.ts:126-129 | `find` keeps exactly the matching documents, all taken from the collection, and never more of them than the collection holds |
| Common.FilterKeepsOrder | server/src/controllers/message.controller.ts:126-129 | `find` returns its results in the collection's natural order |
| Common.HeadFilterKeepsOrder | server/src/controllers/chat.controller.ts:176-179 | After a fixed first element, a filtered list still comes from the original list in order |
| Common.FilterCounts | server/src/controllers/chat.controller.ts:176-179 | Filtering keeps every copy of a kept value and drops every copy of a rejected one |
| Common.Source | server/src/controllers/message.controller.ts:126-129 | Each result of `find` comes from a position in the collection |
| Common.SourceHolds | server/src/controllers/message.controller.ts:126-129 | The document at that position is the result itself |
| Common.SourceIncreases | server/src/controllers/message.controller.ts:126-129 | Later results come from strictly later positions, so no document is returned twice from one position |
| Common.Take | server/src/controllers/message.controller.ts:139 | `.limit(n)` returns a prefix of the results of at most `n` documents, and all of them when there are no more than `n` |
| Common.Drop | server/src/controllers/message.controller.ts:140 | `.skip(k)` drops exactly the first `k` results, or all of them when there are fewer than `k` |
| Common.Reverse | server/src/controllers/message.controller.ts:153 | `.reverse()` puts the i-th from last element at position i |
| Common.Newest | server/src/controllers/message.controller.ts:496-497 | Sorting newest first and limiting to `n` gives the last `n` documents, or all of them when there are fewer, the last one first |
| Common.ReverseReverse | server/src/controllers/message.controller.ts:138-153 | Reversing the newest-first listing restores insertion order |
| Common.NewestFirstPage | server/src/controllers/message.controller.ts:138-153 | Reading newest first, skipping `k`, taking `n` and reversing gives a contiguous run of the oldest-first list, ending `k` before its end |
| Db.UserIndex | server/src/controllers/user.controller.ts:69-71 | A user lookup by id finds the first user with that id, and finds nothing exactly when no user has it |
| Db.ChatIndex | server/src/controllers/message.controller.ts:37 | A chat lookup by id finds the first chat with that id, and finds nothing exactly when no chat has it |
| Db.MessageIndex | server/src/controllers/message.controller.ts:284 | A message lookup by id finds the first message with that id, and finds nothing exactly when no message has it |
| Db.MessageIndexAfterSave | server/src/controllers/message.controller.ts:284-311 | A message saved back in place is found at the same position afterwards |
| Db.FindUser | server/src/middleware/auth.middleware.ts:41 | `findById` with a missing id finds nothing. Otherwise it returns the indexed user |
| Db.FindChat | server/src/controllers/message.controller.ts:37-44 | `findById` on chats with a missing id finds nothing. Otherwise it returns the chat carrying that id |
| Db.AfterMessageSave | server/src/models/Message.ts:123-133 | Saving a message changes the messages as given and the chats only through the post-save hook; users and OTP records stay untouched |
| Db.InsertMessage | server/src/controllers/message.controller.ts:55-62 | `Message.create` appends the new message and runs the post-save hook |
| Db.SaveMessageAt | server/src/controllers/message.controller.ts:311 | `message.save()` replaces the document in place and runs the post-save hook |
| Db.UpdateMessageAt | server/src/socket/handlers.ts:253-265 | `findByIdAndUpdate` replaces the document without running the post-save hook, and changes nothing else |
| Db.SavedMessageIsLast | server/src/models/Message.ts:123-133 | After any message save, that message's chat names it as `lastMessage`. Every other chat is unchanged and no chat is added or removed |
| Db.HookMissDoesNotFailSave | server/src/models/Message.ts:130-132 | When the message's chat is gone, the save still succeeds and no chat changes, because the hook's failure is only logged |
| MessageController.ChatAccess | server/src/controllers/message.controller.ts:104-120 | Chat access is granted exactly to participants of an existing chat. An unknown chat gives 404 "Chat not found"; a non-participant gets 403 with the handler's own message |
| MessageController.SendMessage | server/src/controllers/message.controller.ts:19-72 | Sending checks, in order: 401, 400 when there is no chat id, then the access check. Only a successful send changes the store, by appending a message whose content defaults to "" and type to text, with the chat's `lastMessage` updated |
| MessageController.Pages | server/src/controllers/message.controller.ts:152 | For a positive limit the page count is the least number of pages covering all messages. A zero limit gives no number at all |
| MessageController.Visible | server/src/controllers/message.controller.ts:126-129 | The visible messages are exactly those of the chat that the requester has not deleted for themself |
| MessageController.PageArgs | server/src/controllers/message.controller.ts:93-123 | An absent `page` is 1 and an absent `limit` is 50. The arguments are numbers exactly when each given one is text that `parseInt` reads as a number |
| MessageController.PageArgsReadsDecimals | server/src/controllers/message.controller.ts:93-123 | Decimal numerals in the query are read back as their values, and a missing limit is 50 |
| MessageController.PageArgsWithoutDigitsIsNaN | server/src/controllers/message.controller.ts:122-123 | A `page` with no digit at all, such as "abc", is `NaN`, so no numeric page exists |
| MessageController.GetMessages | server/src/controllers/message.controller.ts:95-154 | A page is returned, with 200, exactly when there is a requester, the chat exists, the requester takes part in it, and the skip `(page-1)*limit` is not negative. The page reports the visible total, its own count, the page number and the page count, and holds only visible messages of that chat |
| MessageController.GetMessagesIsWindow | server/src/controllers/message.controller.ts:122-153 | For a participant and a positive page and limit, the request succeeds and the page is the contiguous oldest-first run of visible messages ending `(page-1)*limit` before the newest, of at most `limit` messages |
| MessageController.Classify | server/src/controllers/message.controller.ts:213-224 | An upload is an image exactly for `image/` types, a video for `video/`, an audio for `audio/`, otherwise a document, and never text |
| MessageController.UploadFileMessage | server/src/controllers/message.controller.ts:176-252 | An upload succeeds exactly for a logged-in participant who sent a file. It stores a message of the classified type with content "Sent a <type>", the hosted URL, the original name and the size |
| MessageController.UpdateMessageStatus | server/src/controllers/message.controller.ts:275-316 | A status update stores any valid status given, with no ordering check. "seen" also adds the requester as a reader once. An invalid status is a validation error that stores nothing |
| MessageController.StatusUpdateCanRegress | server/src/controllers/message.controller.ts:294-296 | A seen message can be set back to sent |
| MessageController.SeenUpdate | server/src/controllers/message.controller.ts:299-311 | A seen update adds the reader to the receipts and leaves the message at its position |
| MessageController.SeenTwiceOneReceipt | server/src/controllers/message.controller.ts:299-309 | Two seen updates by the same user leave exactly one receipt for them when they had none before |
| MessageController.OwnMessage | server/src/controllers/message.controller.ts:348-363 | Edit and delete pass the owner check exactly when the message exists and the requester sent it, with 404 and 403 otherwise |
| MessageController.EditMessage | server/src/controllers/message.controller.ts:339-373 | Only the sender can edit. The content is replaced and the message marked edited; the encrypted content changes only when a new one is given; nothing else changes |
| MessageController.DeleteMessage | server/src/controllers/message.controller.ts:397-439 | Only the sender can delete. Deleting for everyone marks the message deleted and replaces its content; deleting for oneself adds the requester to `deletedFor` once |
| MessageController.DeleteForSelfIdempotent | server/src/controllers/message.controller.ts:430-433 | Deleting a message for oneself twice leaves the store as deleting it once does |
| MessageController.SearchHits | server/src/controllers/message.controller.ts:489-494 | The search query keeps exactly the stored messages of that chat that match, are not deleted and are not hidden from the requester |
| MessageController.SearchMessages | server/src/controllers/message.controller.ts:462-503 | A search fails with 401, then 400 without a query, then 403 for an unknown chat or a non-participant, and otherwise succeeds. It returns the newest 50 hits, newest first, or all hits when there are fewer, each a matching message of that chat that is neither deleted nor hidden from the requester |
| MessageController.SearchReturnsEveryHit | server/src/controllers/message.controller.ts:489-497 | With at most 50 hits, every stored message that the query selects is in the answer |
| AuthController.Public | server/src/controllers/auth.controller.ts:87-96 | The user in a register or login reply copies the id, name, e-mail, avatar, bio, public key, online flag and last-seen time. By construction it has no password or private key |
| AuthController.UserByEmail | server/src/controllers/auth.controller.ts:37 | The e-mail lookup finds the first user whose stored address equals the normalised query address, and finds nothing exactly when no user has it |
| AuthController.VerifiedOtpIndex | server/src/controllers/auth.controller.ts:47-52 | The OTP lookup finds a verified, unexpired e-mail record for the address, and finds nothing exactly when there is none |
| AuthController.NewUser | server/src/controllers/auth.controller.ts:66-75 | The registration document is marked e-mail-verified and carries the normalised e-mail, the plain password and the generated key pair |
| AuthController.Register | server/src/controllers/auth.controller.ts:28-99 | Registration fails, in order: 400 for a missing field, 400 for an address already taken, 400 without a verified OTP. On success it appends the hashed, valid user, deletes exactly the verified OTP record, and replies 201 with the public user and a token for the new id. A failure leaves the store unchanged |
| AuthController.RegisteredUser | server/src/controllers/auth.controller.ts:63-78 | The registered user is the one new user. It is valid, e-mail-verified, offline, stored under the normalised address with a hashed password and the generated keys |
| AuthController.RegisterOnce | server/src/controllers/auth.controller.ts:37-44 | After a successful registration, registering the same address again fails with "User with this email already exists", whatever OTP records remain |
| AuthController.Login | server/src/controllers/auth.controller.ts:119-170 | Login gives 400 without an e-mail or password. It gives the same 401 "Invalid credentials" for an unknown address and for a wrong password. Success marks the user online and replies 200; a failure changes nothing |
| AuthController.LoginKeepsHash | server/src/controllers/auth.controller.ts:147-149 | Logging in a stored user with a hashed password changes only their online flag: the hash is not hashed again |
| AuthController.GetMe | server/src/controllers/auth.controller.ts:187-200 | `/me` gives 401 without a user. Otherwise it returns the user's JSON, which never holds the password or private key |
| AuthController.Logout | server/src/controllers/auth.controller.ts:220-231 | Logout always replies 200 "Logged out successfully" unless the save fails. A known user is marked offline with `lastSeen` set to now, and with no user nothing changes |
| AuthMiddleware.ExtractBearer | server/src/middleware/auth.middleware.ts:18-23 | A token is taken only from a header that starts with `Bearer`, and then exactly when the header has a space. The token never contains a space |
| AuthMiddleware.ExtractAfterScheme | server/src/middleware/auth.middleware.ts:22 | After a first word starting with `Bearer`, the token is the text up to the next space |
| AuthMiddleware.ExtractFromWellFormed | server/src/middleware/auth.middleware.ts:18-23 | `Bearer <token>` yields the token, and so does any first word that merely starts with `Bearer` (such as `Bearerx`) |
| AuthMiddleware.ExtractIgnoresTrailer | server/src/middleware/auth.middleware.ts:22 | Anything after a space that follows the token is ignored |
| AuthMiddleware.BearerAloneHasNoToken | server/src/middleware/auth.middleware.ts:22-31 | The header `Bearer` alone yields no token |
| AuthMiddleware.DoubleSpaceGivesEmptyToken | server/src/middleware/auth.middleware.ts:22-31 | `Bearer` followed by two spaces yields the empty token, which `protect` treats as no token |
| AuthMiddleware.Protect | server/src/middleware/auth.middleware.ts:18-58 | A missing or empty token is denied with "Not authorized to access this route". A rejected token gets "Invalid token" and an unknown user "User not found". Only a stored user is passed on |
| AuthMiddleware.ProtectPassesOnlyStoredUsers | server/src/middleware/auth.middleware.ts:36-52 | A request is passed on exactly when it carries a non-empty token that verifies to the id of a stored user. That user is the one attached |
| UploadMiddleware.FileFilter | server/src/middleware/upload.middleware.ts:8-37 | A file is accepted exactly when its MIME type is one of the fifteen listed types, and any other is refused with the invalid-type message |
| UploadMiddleware.FilterIsExact | server/src/middleware/upload.middleware.ts:32 | The filter compares whole strings: `image/png` and `audio/mpeg` pass, but `image/svg+xml` and `audio/ogg` are refused |
| UploadMiddleware.FilterIsCaseSensitive | server/src/middleware/upload.middleware.ts:32 | A bare prefix `image/` and the upper-case `IMAGE/PNG` are refused |
| UploadMiddleware.ApplicationIsDocument | server/src/controllers/message.controller.ts:213-224 | Every `application/` type is stored as a document |
| UploadMiddleware.AllowedTypesClassify | server/src/middleware/upload.middleware.ts:14-30 | Each accepted type is stored as the kind its group in the list names: image, video, document or audio. No accepted file becomes a text message |
| UploadMiddleware.FileSizeLimit | server/src/middleware/upload.middleware.ts:44 | The size limit is 10 MiB when `MAX_FILE_SIZE` is unset or empty, and otherwise whatever `parseInt` reads from it, possibly nothing |
| UploadMiddleware.DefaultIsTenMebibytes | server/src/middleware/upload.middleware.ts:44 | The default text "10485760" parses to 10 × 1024 × 1024 |
| UploadMiddleware.FileSizeLimitReadsDecimal | server/src/middleware/upload.middleware.ts:44 | A limit written in decimal is read back as that number, even with a unit after a space |
| OtpController.ExistingUser | server/src/controllers/otp.controller.ts:41-43 | The user lookup finds the first user whose e-mail or phone (as the request's type selects) matches, and finds nothing exactly when none does |
| OtpController.DropKey | server/src/controllers/otp.controller.ts:65 | `deleteMany` with the key filter removes exactly the records for that key and keeps every other record |
| OtpController.Replace | server/src/controllers/otp.controller.ts:65-85 | Delete-then-create removes every record for the key, then appends the new record and replies 200. If creation fails, the deletion stands and the reply is 500. Users, chats and messages are untouched |
| OtpController.NewRecordHasKey | server/src/controllers/otp.controller.ts:68-73 | A created record matches the key filter it was created for |
| OtpController.ReplaceLeavesOneRecord | server/src/controllers/otp.controller.ts:64-73 | After a successful send or resend, the key has exactly one record: the new one |
| OtpController.FilterNoneMatch | server/src/controllers/otp.controller.ts:65 | A collection in which no record matches the key filter yields no match |
| OtpController.FilterAppendOne | server/src/controllers/otp.controller.ts:65-73 | Appending one matching record to a collection with no matches yields exactly that record |
| OtpController.SendOtp | server/src/controllers/otp.controller.ts:24-85 | Sending fails with 400 when the selected channel's field is missing, or when a matching user is already verified on that channel. When neither guard applies, it performs the delete-then-create replacement, and it succeeds only for the types "email" and "phone" |
| OtpController.ResendOtp | server/src/controllers/otp.controller.ts:161-187 | A resend performs the same replacement with no checks. On success the key holds exactly the new record |
| OtpController.ResendWithoutEmailWipesPhoneRecords | server/src/controllers/otp.controller.ts:161-175 | An e-mail resend without an e-mail deletes every record that has no e-mail (all phone records), then fails to create its own, with 500 |
| OtpController.CandidateIndex | server/src/controllers/otp.controller.ts:116-122 | The verification lookup finds the first record matching the key, code and type that is unverified and unexpired, and finds nothing exactly when none is |
| OtpController.VerifyOtp | server/src/controllers/otp.controller.ts:107-139 | Verification refuses a missing code with 400. It succeeds exactly when some record is a candidate, and then marks only that record verified; otherwise it gives 400 "Invalid or expired OTP" and changes nothing |
| OtpController.VerifyConsumesRecord | server/src/controllers/otp.controller.ts:120-134 | A record verifies only once: repeating the same request succeeds only when some other record is also a candidate |
| ChatController.DirectChatIndex | server/src/controllers/chat.controller.ts:45-51 | The direct-chat lookup finds the first non-group chat whose two participants are exactly the two users, and finds nothing exactly when none exists |
| ChatController.CreateOrGetChat | server/src/controllers/chat.controller.ts:19-89 | The handler fails with 401, then 400 without a user id, then 400 for a chat with oneself; otherwise it succeeds. An existing direct chat is returned with 200 and nothing changes. Otherwise a new two-person direct chat is appended and returned with 201 |
| ChatController.CreateOrGetChatIdempotent | server/src/controllers/chat.controller.ts:44-67 | Asking twice for the chat with the same user creates it at most once. The second request returns 200 and changes nothing |
| ChatController.GetChats | server/src/controllers/chat.controller.ts:109-136 | The chat list holds exactly the stored chats the requester takes part in |
| ChatController.GroupParticipants | server/src/controllers/chat.controller.ts:176-179 | The group's participants are the creator first and exactly once, then every requested participant other than the creator, each as many times as it was requested, and nobody else |
| ChatController.GroupParticipantsKeepOrder | server/src/controllers/chat.controller.ts:176-179 | The requested participants after the creator keep the order of the request |
| ChatController.CreateGroupChat | server/src/controllers/chat.controller.ts:158-197 | A group needs a name and at least one requested participant. It succeeds exactly when the resulting chat can be saved, and then a saveable group is appended with the creator as admin and the trimmed name |
| ChatController.GroupOfCreatorAloneFails | server/src/controllers/chat.controller.ts:167-187 | A group whose only requested member is its creator passes the request check but ends with one participant. The save is refused with "Group chat must have at least 2 participants" |
| ChatController.UpdateGroupChat | server/src/controllers/chat.controller.ts:220-268 | The update fails with 404 for an unknown chat, 400 for a direct chat and 403 for anyone but the admin. The admin's update succeeds exactly when the updated group passes the schema's validation, and otherwise fails with 500 and the validator's message. On success it stores the update and leaves the group saveable |
| ChatController.GroupUpdate | server/src/controllers/chat.controller.ts:255-256 | The update sets the group name (normalised) only when a non-empty name is given and the participant list only when one is given, and leaves every other field of the chat as it was |
| ChatController.DeleteChat | server/src/controllers/chat.controller.ts:290-327 | Only a participant of an existing chat can delete it. That removes exactly the chat and all of its messages, and keeps every other message, user and OTP record |
| UserController.ListedUsers | server/src/controllers/user.controller.ts:27-39 | The user query keeps exactly the users other than the requester that match the search, or all of them when there is no search |
| UserController.GetUsers | server/src/controllers/user.controller.ts:18-47 | Listing users needs a requester. It returns the first 50 listed users in store order, or all of them when there are fewer, never the requester, each reduced to the selected public fields with no password or private key |
| UserController.GetUsersListsEveryone | server/src/controllers/user.controller.ts:27-41 | With at most 50 listed users, every stored user the query selects is in the answer, in its projected form |
| UserController.GetUserById | server/src/controllers/user.controller.ts:69-84 | A profile is returned exactly when the id is stored, and it is the selected public fields plus the public key. An unknown id gives 404 "User not found" |
| UserController.UpdateProfile | server/src/controllers/user.controller.ts:104-125 | The update needs a stored requester. A non-empty name replaces the name, trimmed; a supplied bio replaces the bio, even an empty one. The saved user is returned without secrets, and a failed save changes nothing |
| UserController.UpdateProfileTouchesOnlyNameAndBio | server/src/controllers/user.controller.ts:115-119 | For a stored user, a profile update changes the name and the bio and nothing else. An absent field keeps its old value |
| UserController.UploadAvatar | server/src/controllers/user.controller.ts:145-181 | The avatar upload needs a stored requester and a file. The user's avatar becomes the hosted URL, which is also the reply; a failure changes nothing |
| ContactController.FoundUsers | server/src/controllers/contact.controller.ts:28-39 | The contact query keeps exactly the users other than the requester whose e-mail, phone or name matches the query |
| ContactController.SearchContacts | server/src/controllers/contact.controller.ts:19-46 | A search needs a query. It returns the contact cards of the first 20 found users in store order (all of them when there are no more than 20), each card a found user other than the requester, and never a password or private key |
| ContactController.SearchContactsListsEveryone | server/src/controllers/contact.controller.ts:28-41 | With no more than 20 matches, every stored user other than the requester whose e-mail, phone or name matches the query has a card in the answer |
| ContactController.TrimAll | server/src/models/User.ts:47-52 | Each listed phone is compared after the `trim` setter, position by position |
| ContactController.PhoneMatches | server/src/controllers/contact.controller.ts:78-81 | The phone query keeps exactly the users, other than the requester, whose stored phone is one of the trimmed listed phones |
| ContactController.Cards | server/src/controllers/contact.controller.ts:81 | Each matched user becomes one contact card, in order: the listed fields and the id, never a secret |
| ContactController.FindByPhones | server/src/controllers/contact.controller.ts:69-86 | Without an array of phones the reply is 400. With one, even an empty one, it is 200 with the cards of exactly the phone matches |
| ContactController.FindByPhonesExact | server/src/controllers/contact.controller.ts:78-85 | The reply holds a card for every user with a listed phone other than the requester, and only cards of such users |
| ContactController.StartChatIndex | server/src/controllers/contact.controller.ts:128-131 | When the query drops the unknown `isGroup` key, the lookup finds the first chat of any kind that holds both users. When the key is kept, it finds nothing |
| ContactController.StartChat | server/src/controllers/contact.controller.ts:109-162 | Starting a chat gives 400 without a participant and 404 for an unknown one. A found chat is returned with 200 and nothing changes. Otherwise a saveable two-person direct chat is appended and returned with 201 |
| ContactController.StartChatReuses | server/src/controllers/contact.controller.ts:127-144 | When the unknown key is dropped, a second request returns 200 with the chat the first request found or made, and creates nothing |
| ContactController.StartChatCanReturnGroup | server/src/controllers/contact.controller.ts:128-131 | When the unknown key is dropped, a group holding both users is returned as the "existing chat" |
| ContactController.StartChatDuplicatesWithoutStrictQuery | server/src/controllers/contact.controller.ts:128-150 | When the unknown key is kept, no chat ever matches, so two requests create two separate direct chats between the same users |
| ContactController.StartChatWithSelf | server/src/controllers/contact.controller.ts:109-150 | Nothing stops a requester from starting a chat with themself: the new direct chat lists them twice |
| SocketRelay.Recipients | server/src/socket/handlers.ts:92-98 | An emission reaches exactly the connected sockets that its target addresses (everyone, a room joined, or a socket's own room), minus the excluded sender |
| SocketRelay.Handshake | server/src/socket/handlers.ts:12-35 | A connection is admitted exactly when the handshake token is present, verifies, and names a stored user, and then it acts as that user. Otherwise it is refused with the matching "Authentication error" message |
| SocketRelay.SetPresence | server/src/socket/handlers.ts:141-144 | The presence update sets the online flag, the socket id and, when given, the last-seen time of the first user with that id. An unknown id changes nothing |
| SocketRelay.Connect | server/src/socket/handlers.ts:134-153 | A connection registers the socket with no rooms, makes it the user's entry in the online registry, marks the user online with that socket id, and tells everyone `user_online` |
| SocketRelay.Connection | server/src/socket/handlers.ts:12-42 | A refused handshake changes nothing. An admitted one connects the socket, which becomes the user's registered socket |
| SocketRelay.Disconnect | server/src/socket/handlers.ts:158-180 | A disconnect drops the socket and the user's registry entry, whichever socket that entry named. It marks the user offline with `lastSeen` now and an empty socket id, and tells everyone `user_offline` |
| SocketRelay.ConnectLastWriterWins | server/src/socket/handlers.ts:146 | When a user connects twice, the registry names the later socket, and the earlier one stays connected |
| SocketRelay.StaleDisconnectDropsNewerSocket | server/src/socket/handlers.ts:173 | When the older of a user's two sockets closes, the user leaves the registry although the newer socket is still connected as that user |
| SocketRelay.Join | server/src/socket/handlers.ts:185-188 | `join_chat` adds the room to the socket's rooms and changes nothing else |
| SocketRelay.Leave | server/src/socket/handlers.ts:193-196 | `leave_chat` removes the room from the socket's rooms and changes nothing else |
| SocketRelay.JoinThenLeave | server/src/socket/handlers.ts:185-196 | Leaving a room one has just joined restores the previous state |
| SocketRelay.Lookup | server/src/socket/handlers.ts:210-212 | The relayed message is the stored message with that id, or nothing exactly when no stored message has it |
| SocketRelay.SendMessage | server/src/socket/handlers.ts:201-226 | `send_message` stores nothing. Without a message object, the sender alone gets `message_error`. Otherwise the room gets `new_message` with the stored message (or nothing) and the sender gets `message_sent` with its own temporary id |
| SocketRelay.SenderHearsOwnMessage | server/src/socket/handlers.ts:215-221 | The sender hears its own `new_message` exactly when it has joined the chat's room. It always hears `message_sent`, and only it does, carrying its temporary id |
| SocketRelay.TypingEvent | server/src/socket/handlers.ts:231-242 | A typing event reaches exactly the other sockets in the chat's room, naming the typist, the chat and the flag. Nothing else changes |
| SocketRelay.MessageDelivered | server/src/socket/handlers.ts:247-268 | `message_delivered` sets the status to delivered, whatever it was, without running the save hook, and tells the message's own chat room. An unknown id changes nothing |
| SocketRelay.MessageSeen | server/src/socket/handlers.ts:273-310 | `message_seen` sets the status to seen and adds the reader once, saving the message so its chat's `lastMessage` points at it. It tells the room the client named, with the receipts. An unknown id changes nothing |
| SocketRelay.DeliveredAfterSeenRegresses | server/src/socket/handlers.ts:253-257 | A `message_delivered` arriving after `message_seen` moves the message back from seen to delivered |
| SocketRelay.SeenTwiceKeepsOneReceipt | server/src/socket/handlers.ts:286-296 | Two `message_seen` events from the same reader leave exactly one receipt for them, stamped with the first time |
| SocketRelay.MarkRead | server/src/socket/handlers.ts:331-336 | A picked message becomes seen with the reader's receipt appended, so the reader has read it |
| SocketRelay.MarkEvents | server/src/socket/handlers.ts:339-343 | At most one status event is emitted per message |
| SocketRelay.MarkFrom | server/src/socket/handlers.ts:330-344 | The loop from any position marks exactly the unread messages at or after it. Earlier messages stay, the emitted events are the reference events for that suffix, and chats change only in `lastMessage` |
| SocketRelay.MarkChatRead | server/src/socket/handlers.ts:315-348 | `mark_chat_read` makes every message of the chat from another sender that the reader had not read seen, with the reader's receipt, and leaves every other message untouched. The chat list keeps its length and order, and only the chat's `lastMessage` can change (the message hook of server/src/models/Message.ts:124-130). Each marked message is announced to the room except the reader |
| SocketRelay.MarkChatReadLeavesNothingUnread | server/src/socket/handlers.ts:323-336 | Afterwards no message of the chat from another sender is unread by the reader, and each marked message holds exactly one receipt for them |
| SocketRelay.MarkFromNothingUnread | server/src/socket/handlers.ts:323-344 | With nothing unread, the loop saves nothing and emits nothing |
| SocketRelay.MarkChatReadIdempotent | server/src/socket/handlers.ts:323-344 | Marking a chat read a second time changes nothing and emits nothing |
| SocketRelay.CallFanOut | server/src/socket/handlers.ts:87-95 | The direct call requests go to the registered socket of every listed online participant other than the claimed caller, and to no other socket, each carrying the caller's data unchanged |
| SocketRelay.VideoCallRequest | server/src/socket/handlers.ts:80-102 | An unknown chat produces nothing. Otherwise the direct requests go to the existing participants, then one emission goes to the chat room except the sender. The store and connections do not change |
| SocketRelay.Populated | server/src/socket/handlers.ts:83 | Population keeps exactly the participants whose user document exists |
| SocketRelay.CallReachesOnlineParticipants | server/src/socket/handlers.ts:83-95 | A socket receives a direct call request exactly when it is the registered socket of an existing, online participant of the chat other than the claimed caller |
| SocketRelay.Relay | server/src/socket/handlers.ts:104-122 | Each call signal goes to the chat room except its sender. The end of a call is renamed `video_call_ended`. Offers, answers and ICE candidates carry the data, while rejection and end carry nothing |
| Text.LeadingSpaces | server/src/models/User.ts:29 | The count of leading characters is exactly the length of the initial run of ECMAScript white space |
| Text.TrailingSpaces | server/src/models/User.ts:29 | The count of trailing characters is exactly the length of the final run of ECMAScript white space |
| Text.Trim | server/src/models/User.ts:29 | `trim` returns the contiguous middle of the string, after all leading white space and with only white space after it. The result neither starts nor ends with white space |
| Text.TrimNoSpaceAtEnds | server/src/models/User.ts:29 | A string that neither starts nor ends with white space is its own trim |
| Text.TrimIdempotent | server/src/models/Chat.ts:30 | Trimming twice is trimming once, so the setter can run again on a stored value without changing it |
| Text.ToLower | server/src/models/User.ts:36 | Lower-casing maps each ASCII capital to its small letter and keeps every other character, so this ASCII-only mapping keeps the length |
| Text.ToUpper | client/src/lib/utils.ts:62-69 | Upper-casing maps each ASCII small letter to its capital and keeps every other character, so this ASCII-only mapping keeps the length |
| Text.Split | server/src/middleware/auth.middleware.ts:22 | `split` on one character gives at least one field. No field contains the separator, and joining the fields with it gives back the string |
| Text.SplitFieldCount | server/src/middleware/auth.middleware.ts:22 | The number of fields is one more than the number of separators |
| Text.SplitAtFirst | server/src/middleware/auth.middleware.ts:22 | The first field is the text before the first separator, and the rest splits on its own |
| Text.SplitWithoutSeparator | server/src/middleware/auth.middleware.ts:22 | A string without the separator is a single field |
| Text.DigitValue | server/src/middleware/upload.middleware.ts:44 | A digit's value is below the radix, and in base 10 a character has a value exactly when it is an ASCII digit |
| Text.DigitRun | server/src/middleware/upload.middleware.ts:44 | The digit run is the longest prefix made only of digits in the radix |
| Text.ParseInt | server/src/controllers/message.controller.ts:122-123 | `parseInt` gives a number only when the text contains a digit, and otherwise gives `NaN` |
| Text.Decimal | client/src/components/chat/MessageInput.tsx:73 | `String(n)` of a natural number is a non-empty run of ASCII digits with no leading zero |
| Text.ParseIntDecimal | server/src/middleware/upload.middleware.ts:44 | `parseInt` reads a decimal numeral back as its value and ignores what follows it, unless that is another digit or an `x` |
| AuthStore.Login | client/src/store/authStore.ts:33-37 | After `login` the store holds that user and token and is authenticated, whatever it held before |
| AuthStore.Logout | client/src/store/authStore.ts:39-43 | After `logout` there is no user and no token, and the store is not authenticated |
| AuthStore.Merge | client/src/store/authStore.ts:47 | Spreading a partial user over the user keeps its id, and an empty patch changes nothing |
| AuthStore.UpdateUser | client/src/store/authStore.ts:45-48 | `updateUser` patches a held user and keeps its id. Without a user it stays empty, and the token and flag are never touched, so a consistent store stays consistent |
| AuthStore.LogoutRestoresInitial | client/src/store/authStore.ts:29-43 | The initial store is consistent, and logging out from any state, including right after a login, gives exactly the initial store |
| AuthStore.UpdateAfterLoginKeepsSession | client/src/store/authStore.ts:33-48 | A profile update after logging in keeps the session: still authenticated, with the same token and user id |
| ChatStore.MergeMsg | client/src/store/chatStore.ts:113 | Spreading a partial message keeps its id, chat, sender and type. A status or receipt list present in the patch replaces the old one, and an absent one keeps it |
| ChatStore.MergeChat | client/src/store/chatStore.ts:81 | Spreading a partial chat without an id keeps the id. A present last message replaces the old one, and an empty patch changes nothing |
| ChatStore.SetChats | client/src/store/chatStore.ts:71 | `setChats` replaces the list and changes nothing else |
| ChatStore.AddChat | client/src/store/chatStore.ts:73-76 | `addChat` puts the chat in front of the unchanged list, even when a chat with that id is already listed, and changes nothing else |
| ChatStore.MergeWhere | client/src/store/chatStore.ts:80-82 | Every listed chat with the id is patched and every other stays, at the same positions |
| ChatStore.UpdateChat | client/src/store/chatStore.ts:78-87 | `updateChat` patches every listed chat with that id, and the open chat when it has that id. Everything else stays |
| ChatStore.UpdateUnknownChatIsNoop | client/src/store/chatStore.ts:78-87 | An id carried by no listed chat and not by the open chat leaves the store unchanged |
| ChatStore.SetCurrentChat | client/src/store/chatStore.ts:89 | `setCurrentChat` changes only the open chat |
| ChatStore.SetMessages | client/src/store/chatStore.ts:91-96 | `setMessages` replaces one chat's list and leaves every other chat's list unchanged |
| ChatStore.AddMessage | client/src/store/chatStore.ts:98-104 | `addMessage` appends the message to that chat's list (an absent list counts as empty) and changes nothing else |
| ChatStore.AddMessageDoesNotDeduplicate | client/src/store/chatStore.ts:98-104 | Adding the same message twice lists it twice |
| ChatStore.MergeById | client/src/store/chatStore.ts:112-114 | Every entry with the id is patched and every other stays, at the same positions |
| ChatStore.UpdateMessage | client/src/store/chatStore.ts:106-117 | `updateMessage` keeps the chat's list length, order and ids. It patches exactly the entries with that id and leaves other chats alone |
| ChatStore.StatusUpdateWithoutReceiptsDropsThem | client/src/components/chat/ChatRoom.tsx:105-112 | A status event without `readBy` (as `message_delivered` sends) writes the new status and erases the message's receipts |
| ChatStore.IdCount | client/src/store/chatStore.ts:125 | The number of entries with an id is zero exactly when no entry has it |
| ChatStore.WithoutId | client/src/store/chatStore.ts:125 | Filtering by id keeps exactly the entries with other ids, and loses one entry per match |
| ChatStore.DeleteMessage | client/src/store/chatStore.ts:119-128 | `deleteMessage` removes every entry with that id from that chat's list, keeps every other entry, and leaves other chats alone |
| ChatStore.DeleteAbsentKeepsList | client/src/store/chatStore.ts:125 | Deleting an id that is not listed changes nothing |
| ChatStore.DeleteMessageIdempotent | client/src/store/chatStore.ts:119-128 | Deleting twice is deleting once |
| ChatStore.SetTyping | client/src/store/chatStore.ts:130-143 | `setTyping` adds the user to, or removes them from, that chat's typing set and changes nothing else |
| ChatStore.SetTypingIdempotent | client/src/store/chatStore.ts:130-143 | Repeating the same typing update changes nothing more |
| ChatStore.StopTypingAbsentIsNoop | client/src/store/chatStore.ts:137-139 | Stopping a user who is not typing leaves the set unchanged |
| ChatStore.StartThenStop | client/src/store/chatStore.ts:130-143 | Starting then stopping restores the set for a user who was not typing |
| ChatStore.ClearChat | client/src/store/chatStore.ts:145-151 | `clearChat` leaves no chats, no open chat, no messages and no typing users |
| ChatStore.ClearChatIsInitial | client/src/store/chatStore.ts:65-151 | A cleared store is exactly the initial store, so clearing twice is clearing once |
| ClientSocket.Append | client/src/lib/socket.ts:67-89 | Each emit changes the summaries of what was sent by itself alone. A join adds its room, a leave removes it, and each delivered or seen receipt counts once |
| ClientSocket.AppendTyping | client/src/lib/socket.ts:79-81 | Each emit adds one to the typing count for its chat and flag when it is that typing event, and nothing otherwise |
| ClientUtils.TruncateText | client/src/lib/utils.ts:54-57 | A text within the limit is returned unchanged. A longer one becomes its first `maxLength` characters followed by "...", or just "..." for a negative limit |
| ClientUtils.TruncateIdempotent | client/src/lib/utils.ts:54-57 | Truncating an already truncated text changes nothing |
| ClientUtils.FirstChars | client/src/lib/utils.ts:63-66 | Each word contributes at most one character. An empty word contributes nothing, since `undefined` joins as "" |
| ClientUtils.GetInitials | client/src/lib/utils.ts:62-69 | The initials are at most two characters, and they are a prefix of the upper-cased first characters of the space-separated words |
| ClientUtils.FirstCharsCons | client/src/lib/utils.ts:65-66 | The first characters of a word list are the first word's initial (if any) followed by the rest |
| ClientUtils.InitialsOfOneWord | client/src/lib/utils.ts:62-69 | A single word gives its own upper-cased initial |
| ClientUtils.InitialsOfFirstTwo | client/src/lib/utils.ts:62-69 | When the first two words are non-empty, the initials are theirs, upper-cased |
| ClientUtils.SplitTwoWords | client/src/lib/utils.ts:64 | Two words separated by a space, then an optional tail after a further space, split into those two words followed by the tail's words |
| ClientUtils.SplitSecondWord | client/src/lib/utils.ts:64 | A word followed by a space and more text splits into that word and the rest's words |
| ClientUtils.InitialsOfTwoWords | client/src/lib/utils.ts:62-69 | "First Last" gives both upper-cased initials, and anything after a further space is ignored |
| ClientUtils.InitialsSkipLeadingSpace | client/src/lib/utils.ts:63-66 | A leading space makes an empty first word that adds no initial |
| ClientUtils.FirstCodeUnit | client/src/lib/utils.ts:85 | `charCodeAt(0)` is a UTF-16 code unit. Below U+10000 it is the character itself |
| ClientUtils.GetAvatarColor | client/src/lib/utils.ts:74-87 | A non-empty name gets one of the eight colour classes. An empty name gets `undefined` |
| ClientUtils.AvatarColorOfFirstChar | client/src/lib/utils.ts:85-86 | The colour depends only on the first character: "Alice" is blue, and two emoji sharing a high surrogate get the same colour |
| ClientUtils.IsValidEmail | client/src/lib/utils.ts:92-95 | An accepted address contains an `@` and no white space |
| ClientUtils.PlainSlice | client/src/lib/utils.ts:93 | A slice of a space-free text with no `@` matches `[^\s@]+` |
| ClientUtils.Unplain | client/src/lib/utils.ts:93 | Every character of a `[^\s@]` run is neither white space nor `@` |
| ClientUtils.ValidEmailHasShape | client/src/lib/utils.ts:93 | Every accepted address matches the pattern: a local part, `@`, a domain and a dot-separated suffix, with no white space or further `@` |
| ClientUtils.NoAtInSuffix | client/src/lib/utils.ts:93 | A suffix in which no position holds `@` contains no `@` |
| ClientUtils.FirstAt | client/src/lib/utils.ts:93 | The first `@` is found at the first position that holds one |
| ClientUtils.ShapedEmailIsValid | client/src/lib/utils.ts:93 | Every string matching the pattern is accepted |
| ClientUtils.IsValidEmailMatchesPattern | client/src/lib/utils.ts:92-95 | The check accepts exactly the strings the regular expression `^[^\s@]+@[^\s@]+\.[^\s@]+$` matches |
| ClientUtils.ValidEmailHasOneAt | client/src/lib/utils.ts:93 | An accepted address holds exactly one `@` |
| ClientUtils.OtherIndex | client/src/lib/utils.ts:105-107 | The other participant is the first one who is not the viewer, and there is none exactly when every participant is the viewer |
| ClientUtils.GetChatName | client/src/lib/utils.ts:100-109 | A group shows its non-empty name or "Group Chat". A direct chat shows the other participant's non-empty name, or "Unknown User" |
| ClientUtils.GetChatAvatar | client/src/lib/utils.ts:114-123 | A group shows its non-empty avatar or "". A direct chat shows the other participant's avatar, or "" when they have none or there is no other participant |
| ClientUtils.GetChatOnlineStatus | client/src/lib/utils.ts:128-135 | A chat shows as online exactly when it is direct and the other participant exists and is online |
| ClientUtils.DirectChatShowsOther | client/src/lib/utils.ts:100-135 | A direct chat between the viewer and someone else shows that someone's name, avatar and online state, in either participant order |
| ClientUtils.SelfChatShowsUnknown | client/src/lib/utils.ts:100-135 | A direct chat listing only the viewer shows "Unknown User", no avatar, and offline |
| Base64.CharOf | client/src/lib/encryption.ts:58 | Each six-bit value has a character of the RFC 4648 alphabet, never the pad character |
| Base64.ValueOf | client/src/lib/encryption.ts:75 | A character the decode reads as a value is exactly the character that value encodes |
| Base64.ValueOfCharOf | client/src/lib/encryption.ts:58-75 | Every six-bit value reads back from its character, so the alphabet is one-to-one |
| Base64.SextetsOf | client/src/lib/encryption.ts:58 | n bytes give ceil(4n/3) six-bit values: four per group of three bytes, then two or three for a shorter final group |
| Base64.BytesOf | client/src/lib/encryption.ts:75 | A count of values that is not one more than a multiple of four carries floor(3n/4) bytes |
| Base64.CharsOf | client/src/lib/encryption.ts:58 | Values become characters one by one, all in the alphabet |
| Base64.ValuesOf | client/src/lib/encryption.ts:75 | Alphabet characters become their values one by one |
| Base64.ValuesOfCharsOf | client/src/lib/encryption.ts:58-75 | Reading the characters of a value sequence gives the values back |
| Base64.BytesOfSextetsOf | client/src/lib/encryption.ts:58-75 | Bytes survive the trip to six-bit values and back, and the count of values is never one more than a multiple of four |
| Base64.Unpadded | client/src/lib/encryption.ts:58 | The unpadded encoding has ceil(4n/3) characters, all in the alphabet |
| Base64.Encode | client/src/lib/encryption.ts:58 | The padded encoding has four characters per started group of three bytes. Each is in the alphabet, except at most the last two, which are `=` |
| Base64.ToBytes | client/src/lib/encryption.ts:89 | A string of characters up to U+00FF reads as the bytes with those codes |
| Base64.FromBytes | client/src/lib/encryption.ts:89 | Bytes become the characters with those codes, all up to U+00FF |
| Base64.BytesRoundTrip | client/src/lib/encryption.ts:89-101 | Such a string survives the trip to bytes and back |
| Base64.Btoa | client/src/lib/encryption.ts:58 | `btoa` throws exactly when some character is above U+00FF. Otherwise it gives four characters per started group of three |
| Base64.RemoveWhitespace | client/src/lib/encryption.ts:75 | The decode drops ASCII white space and keeps every other character. A text without white space is unchanged |
| Base64.StripPadding | client/src/lib/encryption.ts:75 | At most two characters are stripped, and only from the end |
| Base64.Decode | client/src/lib/encryption.ts:75 | The forgiving decode succeeds exactly when the unpadded text is all alphabet characters and its length is not one more than a multiple of four |
| Base64.Atob | client/src/lib/encryption.ts:75 | `atob` throws exactly when the forgiving decode fails. Otherwise it gives characters up to U+00FF |
| Base64.EncodeHasNoWhitespace | client/src/lib/encryption.ts:58-75 | An encoding holds no white space for the decode to drop |
| Base64.StripTwo | client/src/lib/encryption.ts:75 | Two pad characters after a length of 2 mod 4 are both stripped |
| Base64.StripOne | client/src/lib/encryption.ts:75 | One pad character after a length of 3 mod 4 is stripped |
| Base64.StripNone | client/src/lib/encryption.ts:75 | An alphabet text whose length is a multiple of four loses nothing |
| Base64.StripEncoded | client/src/lib/encryption.ts:58-75 | The decode strips exactly the padding the encode added |
| Base64.DecodeEncode | client/src/lib/encryption.ts:58-75 | Decoding any encoding gives the bytes back |
| Base64.AtobBtoa | client/src/lib/encryption.ts:58-75 | `atob(btoa(s)) == s` for every string `btoa` accepts |
| Base64Examples.DecodeHi | client/src/lib/encryption.ts:75 | "aGk" and "aGl" both carry the bytes of "hi" |
| Base64Examples.HiText | client/src/lib/encryption.ts:101 | Bytes 104 and 105 are the text "hi" |
| Base64Examples.AtobForgivesPadding | client/src/lib/encryption.ts:75 | The padding may be left off: "aGk=" and "aGk" both decode to "hi" |
| Base64Examples.AtobForgivesWhitespace | client/src/lib/encryption.ts:75 | White space anywhere is ignored |
| Base64Examples.AtobIgnoresSpareBits | client/src/lib/encryption.ts:75 | The spare low bits of the last character are not checked, so two different texts decode to "hi" |
| Base64Examples.AtobRejects | client/src/lib/encryption.ts:75 | A length of one more than a multiple of four, or a character outside the alphabet, makes `atob` throw |
| Encryption.GenerateKeyPair | client/src/lib/encryption.ts:17-46 | A failed generation gives the two fixed demo keys. Exported keys are given as base64, whose length is a multiple of four |
| Encryption.QuadrupleIsMultipleOfFour | client/src/lib/encryption.ts:35-36 | Four times any integer is a multiple of four, which is why an exported key's encoding has such a length |
| Encryption.OnlyFailureGivesDemoKeys | client/src/lib/encryption.ts:17-46 | The demo keys come back exactly when generation failed, since their length is not a multiple of four |
| Encryption.GeneratedKeysDecode | client/src/lib/encryption.ts:31-37 | Generated keys decode to the exported key bytes |
| Encryption.EncryptMessage | client/src/lib/encryption.ts:51-63 | A message of characters up to U+00FF becomes its base64. Any other message comes back unchanged, and exactly those |
| Encryption.DecryptMessage | client/src/lib/encryption.ts:68-80 | A text that `atob` rejects comes back unchanged. Any other becomes characters up to U+00FF |
| Encryption.AtobRejectsWide | client/src/lib/encryption.ts:75 | A text with a character above U+00FF always makes `atob` throw |
| Encryption.WideSurvives | client/src/lib/encryption.ts:75 | White-space removal keeps every character that is not white space |
| Encryption.DecryptEncrypt | client/src/lib/encryption.ts:51-80 | Decrypting what was encrypted gives the message back, for every message and any two keys. That includes messages the encrypt leaves as they are |
| Encryption.KeysAreIgnored | client/src/lib/encryption.ts:51-80 | Neither direction depends on its key |
| Encryption.PlainTextIsGarbled | client/src/lib/encryption.ts:68-80 | A plain text that happens to be valid base64 does not survive the decrypt: "abcd" does not come back as itself |
| Encryption.ArrayBufferToBase64 | client/src/lib/encryption.ts:85-92 | The characters built byte by byte encode, through `btoa`, to a text that decodes back to the buffer |
| Encryption.Base64ToArrayBuffer | client/src/lib/encryption.ts:97-104 | The bytes built from `atob` character by character are exactly the forgiving decode, which fails exactly when it throws |
| Encryption.BufferRoundTrip | client/src/lib/encryption.ts:85-104 | A buffer survives the trip to base64 and back |
| ChatList.MediaLabel | client/src/components/chat/ChatList.tsx:114-117 | Exactly the non-text kinds have a fixed label |
| ChatList.LastMessagePreview | client/src/components/chat/ChatList.tsx:106-120 | A chat without a last message shows "No messages yet". Otherwise the user's own message gets "You: ", then the deletion notice (which beats the kind), the media label, or the text cut to 30 characters |
| ChatList.SentPreviewIsPrefixed | client/src/components/chat/ChatList.tsx:110-111 | The user's own last message previews as it would for a viewer who is not signed in, with "You: " in front |
| ChatList.TextPreviewIsShort | client/src/components/chat/ChatList.tsx:119 | A text preview is at most 38 characters: the prefix, 30 characters and the ellipsis |
| ChatList.SentPrefixIsAmbiguous | client/src/components/chat/ChatList.tsx:110-119 | A received "You: hi" previews exactly like the user's own "hi" |
| ChatList.UnreadCount | client/src/components/chat/ChatList.tsx:122-125 | The unread count is always zero |
| ChatList.RowOf | client/src/components/chat/ChatList.tsx:210-265 | A row is highlighted exactly when it is the open chat, and carries the tick exactly when the user sent the last message. A group gets the badge and never shows as online. No row ever shows an unread badge |
| ChatList.OneActiveRow | client/src/components/chat/ChatList.tsx:214 | With distinct chat ids, at most one row is highlighted |
| ChatList.HandleCreateChat | client/src/components/chat/ChatList.tsx:85-104 | A failed request changes nothing. An answer becomes the open chat and clears the search. It is put in front of the list exactly when no listed chat has its id, and the messages and typing state are untouched |
| ChatList.CreateChatKeepsIdsUnique | client/src/components/chat/ChatList.tsx:91-95 | Opening a chat keeps the list's ids distinct, and the chat ends up listed |
| ChatList.CreateChatTwice | client/src/components/chat/ChatList.tsx:85-104 | Opening the same chat twice leaves things as opening it once did |
| ChatList.ListedChatKeepsOldCopy | client/src/components/chat/ChatList.tsx:91-97 | An already listed chat keeps its old copy in the list while the server's fresh copy is the open chat |
| ChatList.OnFire | client/src/components/chat/ChatList.tsx:62-70 | A query shorter than two characters clears the results, and exactly those. A longer one asks the server with the query appended unencoded |
| ChatList.Debounced | client/src/components/chat/ChatList.tsx:61-83 | At most one action per change, and the last change always fires |
| ChatList.DebouncedSuffix | client/src/components/chat/ChatList.tsx:61-83 | From any change on, the actions number the changes from there whose timer fires |
| ChatList.DebouncedCount | client/src/components/chat/ChatList.tsx:81-82 | The number of actions equals the number of changes that are either the last one or followed by the next change at least 300 ms later |
| ChatList.BurstFiresOnce | client/src/components/chat/ChatList.tsx:81-82 | Typing with every pause under 300 ms gives one action, for the final text |
| ChatList.SlowTypingFiresEach | client/src/components/chat/ChatList.tsx:81-82 | Typing with every pause at least 300 ms fires once per change, in order |
| ChatList.ApplySearch | client/src/components/chat/ChatList.tsx:63-78 | Clearing empties the results. A successful answer replaces them, and a failed or unsuccessful one keeps them. The query is untouched |
| ChatRoom.OpenChatAsWritten | client/src/components/chat/ChatRoom.tsx:35-70 | As written, a change of chat id leaves the old room and joins the new one but keeps the typing set. The same id changes nothing |
| ChatRoom.OpenChat | client/src/components/chat/ChatRoom.tsx:45-70 | A change of chat id does what the written effect does and also empties the typing set. The same id changes nothing |
| ChatRoom.MessagesFetched | client/src/components/chat/ChatRoom.tsx:48-59 | A fetched history replaces that chat's messages, even when another chat is open by then. A failed fetch changes nothing, and no other chat's messages change |
| ChatRoom.HandleNewMessage | client/src/components/chat/ChatRoom.tsx:77-102 | A message of another chat, or any message with no chat open, is ignored. A message of the open chat is appended. When someone else sent it, a delivery receipt goes out at once and a seen receipt is armed |
| ChatRoom.SeenTimerFires | client/src/components/chat/ChatRoom.tsx:97-99 | An armed timer sends the seen receipt for the chat the message arrived in, whichever chat is open now, and is disarmed |
| ChatRoom.HandleStatusUpdate | client/src/components/chat/ChatRoom.tsx:105-112 | With a chat open and a non-empty id, exactly the messages with that id take the status and the receipts given. Everything else is unchanged |
| ChatRoom.DeliveredUpdateClearsReceipts | client/src/components/chat/ChatRoom.tsx:105-112 | The relay's delivery update carries no receipts, so a message that had some is left with none |
| ChatRoom.HandleTyping | client/src/components/chat/ChatRoom.tsx:115-127 | An event of the open chat from someone else adds or removes them. Any other event is ignored, and only the typing set ever changes |
| ChatRoom.ApplyTyping | client/src/components/chat/ChatRoom.tsx:115-127 | Typing events never change the open chat |
| ChatRoom.ApplyTypingFollows | client/src/components/chat/ChatRoom.tsx:115-127 | Handling typing events one by one gives the typing set that the event history defines |
| ChatRoom.TypingFollowsOpenChat | client/src/components/chat/ChatRoom.tsx:35-127 | With the corrected effect, those shown typing in a newly opened chat are exactly those its own events since opening leave typing |
| ChatRoom.TypingCarriesOverAsWritten | client/src/components/chat/ChatRoom.tsx:35-70 | As written, someone typing in chat "a" is still shown typing after chat "b" is opened, where no typing event has arrived |
| ChatRoom.StartVideoCall | client/src/components/chat/ChatRoom.tsx:152-165 | With a chat open, the user becomes the call's initiator and the request goes out with their id, name and avatar, each absent when nobody is signed in. Otherwise nothing happens |
| ChatRoom.AcceptCall | client/src/components/chat/ChatRoom.tsx:167-171 | The offer is dismissed and the user is in the call, not as its initiator. Nothing is sent |
| ChatRoom.RejectCall | client/src/components/chat/ChatRoom.tsx:173-180 | A rejection goes out to the offering chat exactly when an offer is pending. The offer is dismissed and the call flags are untouched |
| ChatRoom.EndCall | client/src/components/chat/ChatRoom.tsx:182-185 | The call is over: not in a call, not its initiator, and nothing is sent |
| ChatRoom.HandleIncomingCall | client/src/components/chat/ChatRoom.tsx:189-197 | The offer replaces any earlier one, whether or not a call is in progress |
| ChatRoom.RoomSwitchJoins | client/src/components/chat/ChatRoom.tsx:65-69 | Leaving the old room and joining the new one keeps the socket in exactly the open chat's room |
| ChatRoom.SeenTimerKeepsBalance | client/src/components/chat/ChatRoom.tsx:83-99 | A firing timer keeps every delivery receipt matched by a seen receipt that was sent or is armed |
| ChatRoom.StepKeepsInvariant | client/src/components/chat/ChatRoom.tsx:45-203 | Every handler, with the corrected chat switch, keeps three things true: the socket is in exactly the open chat's room, deliveries balance sent and armed seen receipts, and only someone in a call is its initiator |
| ChatRoom.RunKeepsInvariant | client/src/components/chat/ChatRoom.tsx:45-203 | From the first render, every run of events with the corrected chat switch keeps that invariant. So the socket is never left in the room of a chat that is no longer open |
| ChatRoom.StepAsWritten | client/src/components/chat/ChatRoom.tsx:35-203 | As written, a chat switch is the effect that keeps the typing set, and every other event is handled as in the corrected step |
| ChatRoom.StepAsWrittenKeepsInvariant | client/src/components/chat/ChatRoom.tsx:45-203 | The written handlers keep the same invariant too: the typing-set flaw does not touch the room, the receipts or the call flags |
| ChatRoom.RunAsWrittenKeepsInvariant | client/src/components/chat/ChatRoom.tsx:45-203 | From the first render, every run of the written handlers keeps that invariant |
| MessageInput.HandleTyping | client/src/components/chat/MessageInput.tsx:25-44 | The draft takes the value, and the stop timer is re-armed for this chat on every keystroke, even one that empties the draft. A start goes out exactly when no signal was on and the value is non-empty |
| MessageInput.TimerExpires | client/src/components/chat/MessageInput.tsx:40-43 | An armed timer turns the signal off and sends a stop to the chat it was armed for, whether or not a signal was on |
| MessageInput.SendStart | client/src/components/chat/MessageInput.tsx:46-57 | A blank draft, or a send in flight, changes nothing. Otherwise the trimmed draft is posted to this chat, the draft is emptied, a signal that is on is stopped, and the stop timer stays armed |
| MessageInput.SendFinish | client/src/components/chat/MessageInput.tsx:59-85 | A success is announced to the chat the text was posted to. A thrown request puts the posted text back as the draft, and an unsuccessful answer does neither. Nothing is in flight afterwards |
| MessageInput.KeyPress | client/src/components/chat/MessageInput.tsx:87-92 | Enter without Shift sends, and any other key leaves sending alone |
| MessageInput.FileChosen | client/src/components/chat/MessageInput.tsx:94-104 | No file does nothing. A file over 10 MiB is refused with an alert, and any other starts an upload to this chat |
| MessageInput.UploadFinish | client/src/components/chat/MessageInput.tsx:106-137 | A success is announced to the chat the file went to. A thrown request raises an alert, and the upload is over either way. The draft is untouched |
| MessageInput.SwitchChatAsWritten | client/src/components/chat/MessageInput.tsx:16-44 | As written, a new chat id changes only the id, so a typing signal that is on stays on |
| MessageInput.SwitchChat | client/src/components/chat/MessageInput.tsx:16-44 | A real change of chat stops the signal of the chat being left, if it is on, and clears the timer. The draft and any send in flight are kept |
| MessageInput.TypingKeepsInvariant | client/src/components/chat/MessageInput.tsx:25-44 | A keystroke keeps every chat's starts matched by its stops, apart from the signal still on, whose timer is armed for it |
| MessageInput.TimerKeepsInvariant | client/src/components/chat/MessageInput.tsx:40-43 | The timer firing keeps that balance |
| MessageInput.StopKeepsInvariant | client/src/components/chat/MessageInput.tsx:54-57 | Stopping the current chat's signal, if it is on, settles what that chat is owed |
| MessageInput.SendMessageKeepsCounts | client/src/components/chat/MessageInput.tsx:70-74 | Announcing a message changes no chat's typing counts |
| MessageInput.StepKeepsInvariant | client/src/components/chat/MessageInput.tsx:25-138 | Every handler, with the corrected chat switch, keeps the typing balance |
| MessageInput.RunKeepsInvariant | client/src/components/chat/MessageInput.tsx:25-138 | From the first render, with the corrected chat switch, every run of events leaves each chat told the user started typing either told they stopped or owed a stop by the armed timer |
| MessageInput.TypingNeverStopsAsWritten | client/src/components/chat/MessageInput.tsx:25-44 | As written, typing "h" in chat "a", switching to "b" and typing again leaves "a" told the user started typing and never told they stopped |
| MessageInput.SendThenTimerStopsTwice | client/src/components/chat/MessageInput.tsx:40-57 | Sending while the signal is on gives two stops: one at the send and one when the timer, which the send leaves armed, fires |
| MessageInput.ThrownSendRestoresTrimmedDraft | client/src/components/chat/MessageInput.tsx:49-81 | A send that throws restores the draft trimmed, so the white space around it is lost |
| MessageInput.EnabledButtonSends | client/src/components/chat/MessageInput.tsx:46-51 | Whenever the send button is enabled, pressing it starts a send and empties the draft |
| MessageInput.FileLimitMatchesServerDefault | client/src/components/chat/MessageInput.tsx:99-102 | The composer's limit equals the server's default. A file of exactly that size is accepted, though the alert says "less than 10MB", and one byte more is refused |
| MessageInput.ConfiguredServerLimitIsNotShared | client/src/components/chat/MessageInput.tsx:99-102 | A server configured with a smaller limit is unknown to the composer: a file between the two limits passes the composer's check |
| OtpInput.Blanks | client/src/components/auth/OTPInput.tsx:14 | n boxes, all empty |
| OtpInput.Singles | client/src/components/auth/OTPInput.tsx:58 | A text split into its characters, one per box |
| OtpInput.Initial | client/src/components/auth/OTPInput.tsx:13-14 | The first render has `length` well-formed boxes whose joined value is empty |
| OtpInput.FocusAt | client/src/components/auth/OTPInput.tsx:30-70 | A focus call does something exactly when the index has a box, and then focuses that box |
| OtpInput.HandleChange | client/src/components/auth/OTPInput.tsx:17-32 | A change is reported exactly when the input is enabled and the value is empty or one digit. Then only that box changes and the joined boxes are reported. The focus moves on exactly after a digit in a box that is not the last. Well-formed boxes stay well-formed |
| OtpInput.HandleKeyDown | client/src/components/auth/OTPInput.tsx:34-51 | Only Backspace on an enabled input changes anything: it empties the box and reports. The focus moves back after Backspace on an empty box or ArrowLeft, and forward after ArrowRight, each only within the row |
| OtpInput.HandlePaste | client/src/components/auth/OTPInput.tsx:53-71 | The pasted digits, cut to the row, fill the boxes from the first, the rest are emptied, and exactly those digits are reported. The focus goes to the box after the last digit, or to the last box |
| OtpInput.JoinSinglesBlanks | client/src/components/auth/OTPInput.tsx:58-66 | Single characters followed by empty boxes join back to those characters |
| OtpInput.ValueOfWellFormed | client/src/components/auth/OTPInput.tsx:26 | The reported value of well-formed boxes is all digits, at most one per box, and as long as the row exactly when every box is filled |
| OtpInput.PasteFullCode | client/src/components/auth/OTPInput.tsx:53-71 | Pasting a code as long as the row reports the code itself, even with non-digits such as spaces or dashes around it, and focuses the last box |
| OtpInput.OnlyDigitsConcat | client/src/components/auth/OTPInput.tsx:57 | Stripping non-digits distributes over concatenation |
| OtpInput.OnlyDigitsAreDigits | client/src/components/auth/OTPInput.tsx:57 | What is left after stripping is all digits and no longer than the text |
| OtpInput.OnlyDigitsOfDigits | client/src/components/auth/OTPInput.tsx:57 | A text of digits is left as it is |
| OtpInput.OnlyDigitsOfNoDigits | client/src/components/auth/OTPInput.tsx:57 | A text without digits is stripped to nothing |
| OtpInput.ValueForgetsPositions | client/src/components/auth/OTPInput.tsx:26 | The reported value does not keep positions: "5" typed into the third empty box is reported as if typed into the first |
| OtpInput.JoinBlanksFirst | client/src/components/auth/OTPInput.tsx:26 | Empty boxes in front add nothing to the joined value |
| OtpInput.TypeStep | client/src/components/auth/OTPInput.tsx:23-25 | Filling the next box of a row holding a code's first digits gives the row holding one more |
| OtpInput.TypeCode | client/src/components/auth/OTPInput.tsx:17-32 | Typing a code box by box from the first fills every box, and the last keystroke reports the whole code |

## Left out

- The socket service's `emit` drops an event only while its own `socket` field is null, that is before `connect` or after the service's own `disconnect` (client/src/lib/socket.ts:37-42, 48-52); after a lost connection Socket.io buffers the event instead. The model takes the socket as connected, because connection state and buffering belong to Socket.io.
- `markChatRead` (client/src/lib/socket.ts:91-93) is not modelled, because no client code calls it. The relay's side of `mark_chat_read` is modelled.
- Browser notifications, `scrollToBottom`, `alert` dialogs other than the composer's two messages, and clearing the file input are user-interface effects with no state the model tracks.
- The VideoCall component and WebRTC signalling beyond the request and rejection events are not modelled. The model covers only the call flags and the events ChatRoom sends.
- The OTP generator's randomness and the RSA key generator are parameters. Their outputs are taken as given.
- MongoDB's `$regex` matching is a parameter of the searches. Regular-expression semantics are not modelled, and neither is the server error for an invalid pattern (see the GetUsers, SearchContacts and SearchMessages lines below).
- The OTP collection's TTL index (server/src/models/OTP.ts:49) removes expired records in the background. The model checks expiry where the controllers check it, and has no background deletion.
- Requests, timers and socket events are atomic steps. Interleavings inside one async handler are not modelled, and neither are stale search answers that arrive after a newer query.
- Lengths count characters, not UTF-16 code units. The exception is `charCodeAt`, which is modelled as the first code unit.
- Date formatting (`date-fns`), `formatFileSize` and the time shown in the chat list are presentation only.
- Cloudinary storage and the e-mail service are parameters: an upload's URL and a send's success are given.
- The OTP input's `value` prop is ignored by the component, and the model ignores it too.
- The search request does not URL-encode the query. The model keeps the query as it is in the URL text and does not model what the server receives for `&` or `#`.
- ChatController.GetChats: the list is not sorted by `updatedAt` (server/src/controllers/chat.controller.ts:130), because timestamps of updates are not tracked. The model returns the matching chats in store order.
- `populate` of senders, participants and replies is not modelled. References stay ids.
- JWT signing and verification are parameters. The secret and expiry are not modelled.
- bcrypt hashing and `comparePassword` are parameters, and the cost factor is not modelled.
- Text.ToLower: maps only the ASCII letters, while JavaScript's `toLowerCase` and mongoose's `lowercase` setter (server/src/models/User.ts:36, server/src/models/OTP.ts:15-19) map every Unicode letter. The mapping keeps the length only because it is restricted to ASCII.
- Text.ToUpper: maps only the ASCII letters, while `toUpperCase` (client/src/lib/utils.ts:62-69) maps every Unicode letter and can change the length ('ß' becomes "SS").
- UserModel.New: the stored e-mail is lower-cased only in its ASCII letters, so two addresses that differ only in the case of a non-ASCII letter are distinct accounts in the model.
- OtpModel.NormaliseEmail: promises no upper-case ASCII letter, not the full Unicode lower-casing the setter performs.
- ClientUtils.GetInitials: upper-cases only ASCII letters, so a non-ASCII initial is left as it is.
- MessageController.GetMessages: takes the page and limit as numbers, after MessageController.PageArgs has read the query. When `parseInt` gives `NaN`, the handler passes `NaN` on to `.skip` and `.limit` and reports a `NaN` page; what the database driver does with those is outside the program, so that path is not modelled.
- MessageController.ChatAccess: ids are plain strings in the model. A chat id that is not a valid ObjectId makes `Chat.findById` throw a CastError (server/src/controllers/message.controller.ts:37, 105, 195, 480), and the handler's catch answers 500 (lines 73-78, 155-159, 253-257, 504-508) where the model answers 404 "Chat not found". The ObjectId format belongs to mongoose and BSON, so the model does not promise the 500 on that path.
- MessageController.OwnMessage: a message id that is not a valid ObjectId makes `Message.findById` throw a CastError (server/src/controllers/message.controller.ts:348, 406), and the catch answers 500 (lines 375-379, 440-444) where the model answers 404. Same reason as for ChatAccess.
- MessageController.SearchMessages: a malformed chat id throws a CastError at server/src/controllers/message.controller.ts:480, and the catch answers 500 (lines 504-508) where the model answers 403 "Not authorized", as it does for any chat the requester cannot reach (lines 481-486). Same reason as for ChatAccess.
- ChatController.UpdateGroupChat: a malformed chat id throws a CastError at server/src/controllers/chat.controller.ts:229, and the catch answers 500 (lines 269-273) where the model answers 404. A participant list in the body holding a malformed id fails the cast in `chat.save()` (line 258), again answered with 500 by that catch, where the model saves the list. Same reason as for ChatAccess.
- ChatController.DeleteChat: a malformed chat id throws a CastError at server/src/controllers/chat.controller.ts:299, and the catch answers 500 (lines 328-332) where the model answers 404. Same reason as for ChatAccess.
- UserController.GetUserById: a malformed user id throws a CastError at server/src/controllers/user.controller.ts:69, and the catch answers 500 (lines 85-89) where the model answers 404 "User not found". Same reason as for ChatAccess.
- ContactController.StartChat: a malformed participant id throws a CastError at server/src/controllers/contact.controller.ts:118, and the catch answers 500 (lines 163-167) where the model answers 404. Same reason as for ChatAccess.
- SocketRelay.SendMessage: a message object whose `_id` is not a valid ObjectId makes `Message.findById` throw at server/src/socket/handlers.ts:210, and the catch (lines 222-224) sends the sender `message_error` where the model relays `new_message` with no message. Same reason as for ChatAccess.
- MessageController.SendMessage: a `replyTo` that is not a valid ObjectId fails the cast in `Message.create` (server/src/controllers/message.controller.ts:55-62), and the catch answers 500 (lines 73-78) where the model stores the message and answers 201. Same reason as for ChatAccess.
- MessageController.UpdateMessageStatus: a malformed message id throws a CastError at server/src/controllers/message.controller.ts:284, and the catch answers 500 (lines 317-323) where the model answers 404 "Message not found". Same reason as for ChatAccess.
- ChatController.CreateOrGetChat: a `userId` that is not a valid ObjectId fails the cast of the `$all` filter (server/src/controllers/chat.controller.ts:45-51), and the catch answers 500 (lines 90-96) where the model finds or creates the chat. Same reason as for ChatAccess.
- ChatController.CreateGroupChat: a participant id that is not a valid ObjectId fails the cast in `Chat.create` (server/src/controllers/chat.controller.ts:182-187), and the catch answers 500 (lines 198-204) where the model creates the group and answers 201. Same reason as for ChatAccess.
- AuthMiddleware.Protect: a token that verifies but carries an id that is not a valid ObjectId makes `User.findById` throw (server/src/middleware/auth.middleware.ts:41), and the catch answers 401 "Invalid token" (lines 53-58) where the model answers 401 "User not found". Same reason as for ChatAccess.
- SocketRelay.Handshake: a token that verifies but carries a malformed id makes `User.findById` throw (server/src/socket/handlers.ts:25), and the catch refuses the connection with "Authentication error: Invalid token" (lines 32-34) where the model refuses it with "Authentication error: User not found". Same reason as for ChatAccess.
- UserController.GetUsers: the search text goes into `$regex` unescaped (server/src/controllers/user.controller.ts:33-34). MongoDB rejects a text that is not a valid regular expression, such as "+1555" ("nothing to repeat"), and the catch answers 500 (lines 48-53) where the model answers 200. The matcher is a total predicate parameter, so the model does not promise the 500 on that path.
- ContactController.SearchContacts: the query goes into `$regex` unescaped (server/src/controllers/contact.controller.ts:33-35), so an invalid pattern such as "+1555" makes the catch answer 500 (lines 47-53) where the model answers 200. Same reason as for GetUsers.
- MessageController.SearchMessages: the query goes into `$regex` unescaped (server/src/controllers/message.controller.ts:491), so an invalid pattern makes the catch answer 500 (lines 504-508) where the model answers 200. Same reason as for GetUsers.
- OtpController.ResendWithoutEmailWipesPhoneRecords rests on an assumption about mongoose: a query field whose value is `undefined` is taken to match exactly the documents where that field is absent, which is how the driver serialises it as `null`. Should mongoose instead drop the key, the filter matches every record and the resend deletes the whole collection. OtpController.OtpKeyMatch and OtpController.UserKeyMatch encode the same assumption.
- The zustand `persist` middleware (storage key 'auth-storage') and the `localStorage` writes and removals in `login` and `logout` (client/src/store/authStore.ts:26-52) are not modelled. Browser storage is outside the program, and the stores are modelled as in-memory state.

## Findings

| source | as written | input that shows it | evidently intended | confidence | as-written member | corrected member |
|---|---|---|---|---|---|---|
| client/src/components/chat/ChatRoom.tsx:35-70 | The typing set is component state that the chat-id effect never clears, and the page renders ChatRoom without a key, so the set survives a chat switch | Open chat "a", receive "bob" typing in "a", open chat "b": "bob" is shown typing in "b" | The typing set is emptied when the open chat changes | not executed | ChatRoom.TypingCarriesOverAsWritten | ChatRoom.TypingFollowsOpenChat |
| client/src/components/chat/MessageInput.tsx:25-44 | The stop timer's closure captures the chat id at the latest keystroke, and a new chat id neither stops the signal nor clears `isTyping` | Type "h" in chat "a", switch to "b", type "hi", let the timer fire: "a" receives a start and never a stop | Every chat sent a typing start is later sent a stop | not executed | MessageInput.TypingNeverStopsAsWritten | MessageInput.RunKeepsInvariant |
