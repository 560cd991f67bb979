# ChatApp core in Dafny

This project models the core of ChatApp, a chat server with a React client, and proves properties of the model. The core has four parts:

- **`MemStorage`**: the server's in-memory store. It holds seven tables (users, friendships, direct messages, voice calls, groups, group members, group messages), each with its own id counter.
- **The WebSocket relay**: the `userConnections` registry, the user id each connection binds with `auth`, and the router that forwards `voice_call_signal`, `message` and `voice_call_action` frames.
- **The HTTP rules**: the decision rules of the registration, login, friend-request, friendship-status, direct-message and voice-call handlers.
- **The client session holder**: the `currentUser` module variable and the two `localStorage` keys `currentUser` and `rememberMe`.

It also models the zod request schemas as parse functions that return either the parsed value or the list of issues.

Modules, one per file:

| file | module | models |
|---|---|---|
| `wrappers.dfy` | `Wrappers` | `Option`, `Result` |
| `text.dfy` | `Text` | `toLowerCase`, `toUpperCase`, `trim`, `split('@')[0]` |
| `tables.dfy` | `Tables` | `Array.from(map.values())` on the id-keyed tables, and `find`/`filter` over it |
| `sorting.dfy` | `Sorting` | `Array.prototype.sort` with a numeric comparator, which is stable |
| `schema.dfy` | `Schema` | the records of `shared/schema.ts` and its zod schemas |
| `storage.dfy` | `Storage` | `class MemStorage` |
| `routes.dfy` | `Routes` | the HTTP handler rules and flows |
| `relay.dfy` | `Relay` | the WebSocket registry and router, `class RelayServer` |
| `auth.dfy` | `ClientAuth` | `client/src/lib/auth.ts`, `class Session` |

How the model works:

- **The store** is a class with one `map<int, Record>` field per table and one counter per table.
- **Its invariant `Valid`** says each table holds exactly the ids `1 .. counter-1`, each row under its own id. Ids are handed out in that order and `Map.set` on an existing key keeps its position. So `Array.from(table.values())` (`Tables.Rows`) lists rows in ascending id order. Every `find` therefore returns the matching row of smallest id, and every `filter` keeps id order.
- **The state-changing methods** state their whole new state with `State() == old(State()).(...)`. The query functions state what they return in terms of the tables.
- **The relay** is specified by pure functions on a `Registry` value. `RelayServer`'s methods are proved against them, and `RunWellFormed` proves the registry invariant for every sequence of connect, `auth` and close events.
- **The session holder** works the same way: pure functions `Initialized`, `SetUser` and `LoggedOut`, and `Session`'s methods proved against them.

## Model

| member | source | states |
|---|---|---|
| Text.Lower | server/routes.ts:70-73 | `toLowerCase` keeps the length and maps each character on its own |
| Text.Upper | server/routes.ts:151 | `toUpperCase` keeps the length and maps each character on its own |
| Text.LowerIdempotent | server/routes.ts:70-73 | lower-casing an already lower-cased string changes nothing |
| Text.UpperIdempotent | server/routes.ts:151 | upper-casing an already upper-cased string changes nothing |
| Text.CaseRoundTrips | server/routes.ts:151 | upper-casing after lower-casing is upper-casing alone, and the other way round |
| Text.LeadingIn | server/routes.ts:151 | the length of the longest prefix made of characters of the cut set |
| Text.TrailingIn | server/routes.ts:151 | the length of the longest suffix made of characters of the cut set |
| Text.Strip | server/routes.ts:151 | the result is the slice after the leading run of cut characters; only cut characters follow it, and it neither starts nor ends with one |
| Text.StripSlice | server/routes.ts:151 | any slice with only cut characters around it and none at its ends is what stripping leaves |
| Text.StripPadded | server/routes.ts:151 | stripping removes exactly the padding put around a string that does not start or end with a cut character |
| Text.Trim | server/routes.ts:151 | the result is the slice of the input after its leading whitespace; only whitespace follows it, and it neither starts nor ends with whitespace |
| Text.TrimPadded | server/routes.ts:151 | `trim` removes exactly the whitespace put around a string that does not start or end with whitespace |
| Text.TrimOfTrimmed | server/routes.ts:151 | a string without whitespace at its ends is its own `trim` |
| Text.CaseKeepsWhitespace | server/routes.ts:151 | case mapping never turns a character into whitespace or whitespace into something else |
| Text.UpperTrimClean | server/routes.ts:151 | `trim().toUpperCase()` leaves no whitespace at either end and no lower-case ASCII letter |
| Text.UpperTrimCuts | server/routes.ts:151 | `trim().toUpperCase()` is the input upper-cased character by character from the end of its leading whitespace on, and only whitespace follows it |
| Text.UpperOfUpperCase | server/routes.ts:151 | upper-casing leaves a string without lower-case letters as it is |
| Text.CanonicalIsFixedPoint | server/routes.ts:151 | the strings that `trim().toUpperCase()` leaves unchanged are exactly those with no whitespace at either end and no lower-case letter |
| Text.UpperTrimIdempotent | server/routes.ts:151 | trimming and upper-casing twice is doing it once |
| Text.UpperTrimPadded | server/routes.ts:151 | a string padded with whitespace trims and upper-cases to its own upper-cased form, when that has no whitespace at its ends |
| Text.UpperTrimOfLower | server/routes.ts:151 | the lower-case spelling of a canonical string trims and upper-cases back to it |
| Text.BeforeAt | server/routes.ts:70 | `split('@')[0]` is a prefix of the email, has no `@`, and is followed by `@` unless it is the whole email |
| Text.BeforeAtUnique | server/routes.ts:70 | those three properties determine the email prefix uniquely |
| Tables.DenseAppend | server/storage.ts:164-172 | storing a row under the next counter value keeps the table dense with the counter one higher; that id was free and every stored id is smaller |
| Tables.DenseReplace | server/storage.ts:185 | overwriting a stored row with one of the same id keeps the table dense with the same counter |
| Tables.Rows | server/storage.ts:98 | `Array.from(table.values())`: the rows stored under ids 1 up to the counter minus 1, in ascending id order, which is the order `Map` inserted them on a dense table |
| Tables.RowsAt | server/storage.ts:98 | position `i` of `Array.from(values())` on a dense table is the row with id `i+1` |
| Tables.RowsMembership | server/storage.ts:98 | a value is among the rows exactly when it is stored under its own id |
| Tables.RowsIncreasing | server/storage.ts:98 | the rows come in strictly ascending id order |
| Tables.FirstIndex | server/storage.ts:97-99 | `find` stops at the first index that matches; no earlier element matches |
| Tables.FirstMatch | server/storage.ts:97-99 | `Array.find`: the element at the first index where the relation holds, or none when it holds nowhere |
| Tables.FirstInTable | server/storage.ts:97-99 | `find` over a table yields nothing exactly when no row matches, and otherwise the matching row of smallest id |
| Tables.FirstMatchAgrees | server/storage.ts:189-194 | two queries that every row matches alike give the same `find` result |
| Tables.FirstIndexAgrees | server/storage.ts:189-194 | two queries that every row matches alike stop at the same index |
| Tables.Filter | server/storage.ts:198-202 | `filter` keeps exactly the matching elements, and each one comes from the input |
| Tables.FilterIncreasing | server/storage.ts:198-202 | `filter` keeps ascending id order |
| Tables.FilterAgrees | server/storage.ts:198-202 | two queries that every element matches alike give the same `filter` result |
| Tables.FilterTable | server/storage.ts:198-202 | `filter` over a table holds exactly the stored matching rows, in ascending id order |
| Sorting.Insert | server/storage.ts:203 | one insertion step adds exactly the one element: the multiset grows by it and the length by one |
| Sorting.InsertSorted | server/storage.ts:203 | inserting into a sequence sorted by the key keeps it sorted |
| Sorting.SortBy | server/storage.ts:203 | `sort` by `createdAt` yields a sequence sorted by that key with the same multiset of elements |
| Sorting.SortKeepsElements | server/storage.ts:203 | sorting loses and invents no element |
| Sorting.WithKeyCons | server/storage.ts:203 | the elements of one key in `[y] + rest` are `y` (when it has that key) followed by those of `rest` |
| Sorting.WithKeyShift | server/storage.ts:203 | an element of a different key put in front leaves the elements of one key as they were |
| Sorting.InsertWithKey | server/storage.ts:203 | insertion puts an element ahead of every element with the same key, and keeps the order of those elements |
| Sorting.SortStable | server/storage.ts:203 | the sort is stable: the elements with any one key keep their relative order |
| Sorting.SortSortedIsIdentity | server/storage.ts:203 | sorting an already sorted sequence returns it unchanged |
| Sorting.WithKeyIncreasing | server/storage.ts:203 | the elements of one key in an id-ordered sequence are still in id order |
| Schema.ParseRegistration | shared/schema.ts:66-76 | the body parses exactly when all four strings are present and `password == confirmPassword`; a mismatch yields exactly one issue, at path `confirmPassword` with the message "Passwords don't match" |
| Schema.ParseLogin | shared/schema.ts:78-81 | the body parses exactly when both fields are non-empty; every issue names a field that fails |
| Schema.ParseAddFriend | shared/schema.ts:90-92 | the body parses exactly when the friend code is non-empty, untrimmed; issues are at `friendCode` |
| Schema.ParseSendMessage | shared/schema.ts:94-98 | the body parses exactly when `receiverId` is present and the message is non-empty; `senderId` is optional and passed through |
| Schema.ParseCallAction | shared/schema.ts:100-104 | an action parses exactly when it is one of `start`, `accept`, `reject`, `end`, each to its own constructor |
| Schema.ParseVoiceCall | shared/schema.ts:100-104 | the body parses exactly when the action is in the enum; receiver and group are passed through; the one issue says `Required` or `InvalidEnum` |
| Schema.ParseCreateGroup | shared/schema.ts:106-110 | the body parses exactly when the name is non-empty; description and avatar are optional |
| Schema.ParseAddGroupMember | shared/schema.ts:112-115 | the body parses exactly when `userId` is present and the role is absent, `member` or `admin`; the role is `Admin` exactly when `admin` was given, so an absent role defaults to `Member` |
| Schema.ParseSendGroupMessage | shared/schema.ts:117-120 | the body parses exactly when `groupId` is present and the message is non-empty |
| Storage.GroupIdsOf | server/storage.ts:275-277 | `.map(gm => gm.groupId)` keeps positions |
| Storage.UserIdsOf | server/storage.ts:283-285 | `.map(gm => gm.userId)` keeps positions |
| Storage.Merge | server/storage.ts:135 | `{ ...user, ...updates }`: a supplied field takes the new value, and every other field, including id, username, email and password, keeps its value |
| Storage.NewUserRecord | server/storage.ts:117-126 | the user `createUser` builds: the given id, username, email, password and friend code, the display name unless it is missing or empty (then `null`), and no avatar or about text |
| Storage.Patched | server/storage.ts:135 | one field of `{ ...user, ...updates }`: the supplied value when there is one, otherwise the current value |
| Storage.OtherParty | server/storage.ts:148 | the side of a friendship that is not the given user: the `friendId` when the user is the `userId`, otherwise the `userId` |
| Storage.EntryFor | server/storage.ts:148-157 | what one pass of the loop pushes: nothing when the other party is not a stored user, otherwise one entry with that user, the friendship's status, whether the given user received the request, and the friendship id |
| Storage.FriendEntries | server/storage.ts:147-158 | what the loop has pushed after visiting a prefix of the friendships: the entries of the prefix one shorter, followed by the entry of its last friendship |
| Storage.FriendEntriesSnoc | server/storage.ts:147-158 | visiting one more friendship appends exactly its entry, if any |
| Storage.PushFriendEntries | server/storage.ts:145-158 | the loop's result is `FriendEntries` of the friendships visited |
| Storage.FriendEntriesSpec | server/storage.ts:147-158 | each pushed entry is the other party of a visited friendship with that friendship's status and id; `isRequestReceiver` is whether `u` is its `friendId`; every visited friendship whose other party exists has its entry |
| Storage.FriendEntriesIncreasing | server/storage.ts:147-158 | visiting friendships in id order pushes entries in friendship id order |
| Storage.FriendsOfTable | server/storage.ts:140-161 | the friends list over a table is exactly the entries of the friendships involving `u` whose other party is a user, in friendship id order |
| Storage.GroupIdsOfUser | server/storage.ts:275-277 | the collected group ids are exactly the groups some membership of `u` names |
| Storage.UserIdsOfGroup | server/storage.ts:283-285 | the collected user ids are exactly the users some membership of the group names |
| Storage.GroupsOfUser | server/storage.ts:274-280 | the groups listed for `u` are exactly the stored groups a membership of `u` names, in id order |
| Storage.MembersOfGroup | server/storage.ts:282-288 | the members listed for a group are exactly the stored users a membership names, in id order, each once |
| Storage.MemStorage.constructor | server/storage.ts:76-91 | all seven tables start empty and every counter starts at 1 |
| Storage.MemStorage.GetUser | server/storage.ts:93-95 | a user is found exactly for the ids handed out so far, under its own id |
| Storage.MemStorage.GetUserByEmail | server/storage.ts:97-99 | nothing exactly when no user has the email, otherwise the stored user of smallest id that has it |
| Storage.MemStorage.GetUserByUsername | server/storage.ts:101-103 | nothing exactly when no user has the username, otherwise the stored user of smallest id that has it |
| Storage.MemStorage.GetUserByEmailOrUsername | server/storage.ts:105-109 | nothing exactly when no user's email or username is the text, otherwise the stored user of smallest id whose email or username is it |
| Storage.MemStorage.GetUserByFriendCode | server/storage.ts:111-113 | nothing exactly when no user has the code, otherwise the stored user of smallest id that has it |
| Storage.MemStorage.CreateUser | server/storage.ts:115-129 | the new id is the counter's value, unused and larger than every earlier id; the counter moves on by one; avatar and about are null; displayName is null exactly when none or the empty string was given; `getUser` then finds the user; no other table changes |
| Storage.MemStorage.UpdateUser | server/storage.ts:131-138 | an unknown id gives nothing and changes nothing; otherwise the stored user becomes the merge, keeps its id and is returned; nothing else changes |
| Storage.MemStorage.GetFriendsByUserId | server/storage.ts:140-161 | the loop returns exactly the entries of the friendships involving `u` whose other party exists, with the right status, receiver flag and friendship id, in friendship id order |
| Storage.MemStorage.CreateFriendRequest | server/storage.ts:163-174 | stores a fresh friendship with status `pending` in the given orientation; nothing else changes |
| Storage.MemStorage.GetFriendship | server/storage.ts:189-194 | nothing exactly when the two users have no friendship in either direction, otherwise the one of smallest id |
| Storage.MemStorage.GetFriendshipSymmetric | server/storage.ts:189-194 | `getFriendship(a, b)` and `getFriendship(b, a)` find the same record |
| Storage.MemStorage.UpdateFriendshipStatus | server/storage.ts:176-187 | true exactly when `getFriendship` finds a record; then only that record's status changes; otherwise nothing changes |
| Storage.MemStorage.GetMessagesBetweenUsers | server/storage.ts:197-204 | exactly the stored messages between the two users, in either direction; sorted by `createdAt`; messages with equal times in the order they were stored |
| Storage.MemStorage.SortedInIdOrder | server/storage.ts:203 | sorting an id-ordered list by time keeps equal-time messages in id order |
| Storage.MemStorage.MessagesBetweenSymmetric | server/storage.ts:197-204 | the conversation of `a` with `b` is the same sequence as that of `b` with `a` |
| Storage.MemStorage.SendMessage | server/storage.ts:206-217 | stores a fresh message; nothing else changes; the conversation between sender and receiver then contains it |
| Storage.MemStorage.CreateVoiceCall | server/storage.ts:220-231 | stores a fresh call in status `calling`; nothing else changes |
| Storage.MemStorage.UpdateVoiceCallStatus | server/storage.ts:233-240 | false and nothing changed for an unknown id; otherwise only that call's status changes |
| Storage.MemStorage.GetActiveVoiceCall | server/storage.ts:242-247 | nothing exactly when `u` has no call in status `calling` or `active`, otherwise the one of smallest id, with `u` as caller or receiver |
| Storage.MemStorage.CreateGroup | server/storage.ts:250-260 | stores a fresh group; nothing else changes |
| Storage.MemStorage.AddUserToGroup | server/storage.ts:262-272 | stores a fresh membership, with no check on the group, the user or duplicates; nothing else changes |
| Storage.MemStorage.GetGroupsForUser | server/storage.ts:274-280 | exactly the stored groups some membership of `u` names, in group id order |
| Storage.MemStorage.GetGroupMembers | server/storage.ts:282-288 | exactly the stored users some membership of the group names, each once, in user id order |
| Storage.MemStorage.SendGroupMessage | server/storage.ts:290-301 | stores a fresh group message; nothing else changes; the group's messages then contain it |
| Storage.MemStorage.GetGroupMessages | server/storage.ts:303-307 | exactly the stored messages of the group, sorted by time, equal times in the order stored |
| Storage.MemStorage.GroupSortedInIdOrder | server/storage.ts:305 | sorting an id-ordered list by time keeps equal-time group messages in id order |
| Routes.RegisteredDisplayName | server/routes.ts:44 | the display name handed to `createUser`: the given one unless it is missing, `null` or empty, and otherwise the username |
| Routes.Register | server/routes.ts:20-52 | validation errors first, then an error when some user has the email or the username, both leaving the store as it was; otherwise one user is stored at the next id with the given friend code and the display name defaulting to the username; no other user then shares its email or username |
| Routes.PasswordAccepted | server/routes.ts:69-74 | the login rule: the password is the stored one, and lower-cased it equals the lower-cased username or the lower-cased part of the email before the first `@` |
| Routes.Login | server/routes.ts:59-78 | validation errors come first, then "invalid credentials" when no user has the email or username, then the password rule; on success the user is the stored one that has that password |
| Routes.LockedOut | server/routes.ts:69-74 | a user whose password is, ignoring case, neither the username nor the email prefix can never log in, whatever the body |
| Routes.LoginSucceedsExactly | server/routes.ts:59-78 | for the user the email or username finds, login succeeds exactly when the password rule accepts the password, and then returns that user |
| Routes.NameMatchIgnoresCase | server/routes.ts:69-74 | a password that spells the username or the email prefix with any letters changed in case is accepted |
| Routes.CleanFriendCode | server/routes.ts:151 | the cleaned code has no whitespace at either end and no lower-case ASCII letter |
| Routes.CleanFriendCodeIdempotent | server/routes.ts:151 | cleaning a cleaned code changes nothing |
| Routes.CleanCodesAreCanonical | server/routes.ts:151 | a code is its own cleaned form exactly when it has no whitespace at either end and no lower-case letter |
| Routes.AnyCaseAndPaddingFindSameCode | server/routes.ts:151-152 | a clean code typed in any mix of cases and padded with whitespace cleans to that code, so the lookup finds the same user |
| Routes.LowerCaseCodeFindsSameCode | server/routes.ts:151-152 | the lower-case spelling of a clean code cleans to it |
| Routes.FriendRequestCheck | server/routes.ts:155-171 | the checks in order: no user with the code, yourself, pending ("already sent"), accepted ("already friends"); any other state admits the request, each outcome in both directions |
| Routes.FriendRequestDecision | server/routes.ts:148-171 | validation comes before cleaning; an admitted friend is the stored user with the cleaned code, is not the sender, and has no pending or accepted friendship found with the sender |
| Routes.AddFriend | server/routes.ts:145-174 | a refused request changes nothing; an admitted one stores one fresh pending friendship from the sender to the friend and returns it with the friend |
| Routes.RequestTwiceAfterRejection | server/routes.ts:164-173 | when the friendship found between two users is not pending or accepted (e.g. rejected), sending the request twice stores two distinct pending friendships and neither is refused |
| Routes.OldestStaysFirst | server/storage.ts:189-194 | the friendship `getFriendship` finds stays the one it finds while only larger ids are added |
| Routes.AdmittedAgain | server/routes.ts:151-171 | once one more friendship of the next id is stored, a request admitted because its oldest friendship was neither pending nor accepted is admitted again |
| Routes.StillAdmitted | server/routes.ts:151-171 | a request whose friend is still found by code and whose found friendship is neither pending nor accepted is admitted |
| Routes.AllowedFriendshipStatus | server/routes.ts:215 | a status may be set only when it is `accepted` or `rejected`; any other value, or none, is refused |
| Routes.AnswerFriendRequest | server/routes.ts:209-225 | a status other than `accepted` or `rejected` is refused before the store is touched; a missing friendship gives "not found" and changes nothing; otherwise only that record's status changes |
| Routes.SignedIn | server/routes.ts:248-252 | the session user id lets a message through only when it is truthy: present and not 0 |
| Routes.PostMessage | server/routes.ts:245-255 | validation first, then a falsy session user id is refused; otherwise the message is stored with the session's user as sender, whatever `senderId` the body carries |
| Routes.NewCallStatus | server/routes.ts:284-296 | `accept` gives `active`; `reject` and `end` give `ended`; `start` has no status update, each in both directions |
| Routes.VoiceCallAction | server/routes.ts:265-299 | validation, then authentication; `start` stores a fresh ringing call; any other action with no live call gives "not found" and changes nothing; otherwise only the live call's status changes, to the mapped status |
| Relay.Truthy | server/routes.ts:337 | JavaScript truthiness of a user id: a missing id (`null` or `undefined`) and 0 are falsy, every other integer is truthy |
| Relay.Lookup | server/routes.ts:345-346 | `userConnections.get(target)` followed by the `readyState === OPEN` test: the connection registered for the target when there is one and it is open, otherwise none |
| Relay.SendTo | server/routes.ts:345-352 | one delivery of the envelope to the connection `Lookup` finds, or no delivery |
| Relay.Opened | server/routes.ts:327-328 | a new socket: the next connection number, open, with bound id `null`; the registry is as it was |
| Relay.Authenticate | server/routes.ts:336-339 | `auth`: the connection's bound id becomes the frame's id, and the registry maps that id to this connection only when the id is truthy |
| Relay.Disconnect | server/routes.ts:389-393 | `close`: the socket is no longer open, and when its bound id is truthy that id's registry entry is deleted, whichever connection it names |
| Relay.SendToDeliversOnce | server/routes.ts:344-352 | at most one delivery; one exactly when the target is registered and its socket is open, and then to that socket |
| Relay.OpenedWellFormed | server/routes.ts:327-328 | a new connection keeps the invariant, is new to the registry state, and starts open |
| Relay.AuthenticateWellFormed | server/routes.ts:335-340 | `auth` keeps the invariant |
| Relay.DisconnectWellFormed | server/routes.ts:389-393 | `close` keeps the invariant |
| Relay.AuthRegisters | server/routes.ts:335-340 | after `auth` with a truthy id on an open socket, that id is routed to this socket and every other id as before |
| Relay.LastAuthWins | server/routes.ts:335-340 | of two `auth` frames for one id, the later socket wins |
| Relay.FalsyAuthRegistersNothing | server/routes.ts:335-340 | `auth` with a falsy id rebinds the connection and changes no routing |
| Relay.CloseUnregisters | server/routes.ts:389-393 | closing removes the bound truthy id from the registry, and only it; only this socket leaves the open set |
| Relay.CloseEvictsNewerSocket | server/routes.ts:389-393 | when the same user signs in on a second socket and the first one closes, the still-open second socket is unreachable |
| Relay.RunWellFormed | server/routes.ts:327-393 | every state reachable by connect, `auth` and close events is well formed |
| Relay.NeverRegistersZero | server/routes.ts:336-339 | from the empty relay, the registry never holds the id 0 |
| Relay.RelayServer.constructor | server/routes.ts:325 | the registry starts empty |
| Relay.RelayServer.Connect | server/routes.ts:327-328 | a fresh open connection with a `null` bound id |
| Relay.RelayServer.Receive | server/routes.ts:330-387 | only `auth` changes the registry; signal and action frames go to the target's open socket, stamped with the sender's bound id; `message` on an unauthenticated connection does nothing, otherwise it is stored before the at most one `new_message` delivery is attempted; malformed and unknown frames do nothing |
| Relay.RelayServer.Bind | server/routes.ts:335-339 | `auth` sets the connection's user id and, when that id is truthy, points the registry entry for it at this connection |
| Relay.RelayServer.StoreAndDeliver | server/routes.ts:355-367 | the message with the next id is stored first; then it is sent once to the receiver's socket when that socket is registered and open, and otherwise to no one |
| Relay.RelayServer.Forward | server/routes.ts:344-345 | a send happens only through the registry lookup and the open test |
| Relay.RelayServer.Close | server/routes.ts:389-393 | the registry after close is `Disconnect` of the one before |
| ClientAuth.Forget | client/src/lib/auth.ts:14-15 | both keys are gone and every other key is kept |
| ClientAuth.Initialized | client/src/lib/auth.ts:6-18 | the session after a page load: a user only when the flag is `'true'` and the saved text is non-empty and parses to a user; a parse error leaves no user and removes both keys; a text that parses to `null` leaves no user and the store as it was |
| ClientAuth.SetUser | client/src/lib/auth.ts:25-38 | the given user is current; with `rememberMe` and a user both keys are written; with a user while the flag is `'true'` the saved user is rewritten; otherwise without `rememberMe` both keys are removed; a `null` user with `rememberMe` leaves the store |
| ClientAuth.LoggedOut | client/src/lib/auth.ts:40-44 | no current user, and both keys removed from the store with every other key kept |
| ClientAuth.RememberSavesBoth | client/src/lib/auth.ts:28-30 | `setCurrentUser(u, true)` keeps `u` and writes the encoded user and `rememberMe='true'`, and touches no other key |
| ClientAuth.RewriteKeepsFlag | client/src/lib/auth.ts:31-33 | with the flag set, `setCurrentUser(u)` rewrites the saved user and keeps the flag |
| ClientAuth.NotRememberedForgets | client/src/lib/auth.ts:34-37 | `setCurrentUser(x, false)` without the flag removes both keys |
| ClientAuth.NullForgets | client/src/lib/auth.ts:34-37 | `setCurrentUser(null, false)` removes both keys even with the flag set |
| ClientAuth.NullRememberKeepsStore | client/src/lib/auth.ts:25-38 | `setCurrentUser(null, true)` touches neither key |
| ClientAuth.SetUserFrame | client/src/lib/auth.ts:25-38 | in every branch only the two keys may change, and the in-memory user is the one given |
| ClientAuth.LogoutClears | client/src/lib/auth.ts:40-44 | after `logout` there is no user and neither key; other keys stay; `logout` is idempotent |
| ClientAuth.InitializeRestoresOnlyRemembered | client/src/lib/auth.ts:6-18 | a user is restored exactly when the flag is `'true'` and the saved text is non-empty and parses to a user, and then it is that user |
| ClientAuth.InitializeDropsUnparsable | client/src/lib/auth.ts:10-16 | a saved text that does not parse leaves no user and removes both keys |
| ClientAuth.InitializeKeepsStore | client/src/lib/auth.ts:6-18 | without a parse error the store is left as it is |
| ClientAuth.RememberedUserSurvivesReload | client/src/lib/auth.ts:6-30 | given that parsing undoes stringifying, a user saved with `rememberMe` is restored on the next load |
| ClientAuth.LoggedOutStaysOut | client/src/lib/auth.ts:6-18 | after `logout` the next load restores no one and changes nothing |
| ClientAuth.Session.constructor | client/src/lib/auth.ts:3-21 | loading the module gives the session `initializeAuth` describes |
| ClientAuth.Session.GetCurrentUser | client/src/lib/auth.ts:24 | the user last set |
| ClientAuth.Session.IsAuthenticated | client/src/lib/auth.ts:39 | true exactly when a user is set |
| ClientAuth.Session.SetCurrentUser | client/src/lib/auth.ts:25-38 | the new session is `SetUser` of the old one; the current user is the one given |
| ClientAuth.Session.Logout | client/src/lib/auth.ts:40-44 | the new session is `LoggedOut` of the old one and not authenticated |

## Behaviours the code does not have

Three behaviours the code does not have:

- an unregister that leaves a newer connection in place;
- group fan-out of `group_message` and group calls;
- a call-session state machine that checks signals.

The model follows the code. `close` deletes the registry entry of the bound id unconditionally (`Relay.CloseEvictsNewerSocket`). `group_message` falls into the ignored `Other` frames. Signals and call actions are relayed without any call-session check.

## Left out

- HTTP plumbing: Express routing, status codes and JSON response bodies. Errors are datatypes instead. The `try`/`catch` that turns exceptions into status 500 is not modelled.
- The session middleware. `(req as any).session` comes from no middleware that is part of this code, so the session user id is a parameter of `PostMessage` and `VoiceCallAction`.
- `parseInt` of the route parameters. Ids arrive as `int`, so `NaN` ids are not modelled.
- `generateFriendCode` and the retry-until-unique loops. They depend on `Math.random`. `Routes.Register` takes the code that the loop settles on as its `friendCode` parameter, so registration does not guarantee that the code is unused. The friend-code regeneration handler (server/routes.ts:186-206) is not modelled.
- The profile, user-lookup, friend-list, conversation and active-call HTTP handlers (server/routes.ts:92-142, 232-242, 309-317), and `updateProfileSchema`. Apart from removing passwords, listed below, they pass data to `getUser`, `updateUser`, `getFriendsByUserId`, `getMessagesBetweenUsers` and `getActiveVoiceCall`, which are modelled, and reply with what those return (`null` for no active call).
- Field types in the validation schemas. The `Schema.Parse*` inputs are `Option<string>` and `Option<int>`, so a field of the wrong JSON type, or `null` for a required field, cannot be written. zod rejects both with an `invalid_type` issue; the model can only report a missing field (`Required`) or accept the input.
- `new Date()`: times are an integer `now` passed in, in milliseconds, not assumed to increase.
- Case mapping beyond ASCII. `Text.Lower` and `Text.Upper` map only `A`–`Z` and `a`–`z`, while JavaScript's `toLowerCase`/`toUpperCase` apply full Unicode case mapping.
- JSON values. WebSocket frames are decoded into `Relay.Frame`: a frame whose `receiverId` is not a number or whose `messageText` is missing is outside the model, as is an `auth` or target id that is neither a number nor absent, or is a number that is not an integer (such as `1.5`, which is truthy but never a registry key the model can hold). Signal, action and call id payloads are kept as opaque text.
- `JSON.stringify`/`JSON.parse` in the client. They are the `encode`/`decode` functions a `Session` is built with. A parsed value other than `null` or a user is not modelled.
- The `groupId` column of voice calls. `createVoiceCall` never sets it.
- Removing the password from the responses: registration and login (server/routes.ts:48, 81), the user lookup and profile update (server/routes.ts:101, 120) and each entry of the friend list (server/routes.ts:137). `Routes.Register` and `Routes.Login` return the stored user, and the storage queries return stored users with their passwords.
- Relay.RelayServer.Receive: `sendMessage` is awaited before the receiver is looked up. Node could run another handler in that gap, but the model treats each event as one atomic step, since Node never runs two handlers at the same moment.
- The `readyState` states `CONNECTING`, `CLOSING` and `CLOSED` are not told apart: a socket counts as open until its `close` handler has run.
- Routes.VoiceCallAction: the `default` arm of the action switch (server/routes.ts:293-294) cannot be reached after validation, because `start` is handled before the switch. The model has no such error.
- Routes.AnswerFriendRequest: `req.body.status` is any JSON value. The model takes an optional string, and no other value can equal `accepted` or `rejected` anyway.
- UI, WebRTC media handling, the 3-second reconnect timer and the client's HTTP calls: React and browser code outside the core.
