/**
 * The decision rules of the HTTP handlers in server/routes.ts, and the
 * handlers that apply them to the store: registration, login, sending a
 * friend request, answering one, sending a direct message and the
 * voice-call actions. Each handler validates its body first, then decides,
 * then touches the store; an error result leaves the store as it was.
 */
module Routes {
  import opened Wrappers
  import opened Text
  import opened Schema
  import opened Storage
  import opened Tables

  // ---------------------------------------------------------------- registration

  datatype RegisterError =
    | RegisterInvalid(issues: seq<Issue>) // the body fails `insertUserSchema`
    | UserExists                          // the email or the username is taken

  /** `userData.displayName || userData.username`: the name given, unless it is missing, `null` or empty. */
  function RegisteredDisplayName(d: Registration): string {
    if d.displayName.Some? && d.displayName.value != "" then d.displayName.value else d.username
  }

  /**
   * `POST /api/auth/register`: a body that fails validation, or whose email
   * or username some user already has, changes nothing; otherwise one user
   * is stored, with the friend code the generator settled on and the display
   * name defaulting to the username. So a registration never creates a
   * second user with the same email or the same username.
   */
  method Register(st: MemStorage, body: RegisterInput, friendCode: string) returns (r: Result<User, RegisterError>)
    requires st.Valid()
    modifies st
    ensures st.Valid()
    ensures ParseRegistration(body).Failure? ==>
      r == Failure(RegisterInvalid(ParseRegistration(body).error)) && st.State() == old(st.State())
    ensures ParseRegistration(body).Success? ==>
      var d := ParseRegistration(body).value;
      var taken := old(st.GetUserByEmail(d.email)).Some? || old(st.GetUserByUsername(d.username)).Some?;
      && (taken ==> r == Failure(UserExists) && st.State() == old(st.State()))
      && (!taken ==>
            && r.Success?
            && r.value == NewUserRecord(old(st.currentUserId),
                            NewUser(d.username, d.email, d.password, Some(RegisteredDisplayName(d)), friendCode))
            && r.value.displayName == (if RegisteredDisplayName(d) == "" then None else Some(RegisteredDisplayName(d)))
            && st.State() == old(st.State()).(users := old(st.users)[r.value.id := r.value],
                                              nextUser := old(st.currentUserId) + 1))
    ensures r.Success? ==> forall k :: k in st.users && k != r.value.id ==>
      st.users[k].email != r.value.email && st.users[k].username != r.value.username
  {
    var parsed := ParseRegistration(body);
    if parsed.Failure? {
      return Failure(RegisterInvalid(parsed.error));
    }
    var d := parsed.value;
    var existing := if st.GetUserByEmail(d.email).Some? then st.GetUserByEmail(d.email) else st.GetUserByUsername(d.username);
    if existing.Some? {
      return Failure(UserExists);
    }
    var u := st.CreateUser(NewUser(d.username, d.email, d.password, Some(RegisteredDisplayName(d)), friendCode));
    r := Success(u);
  }

  // ---------------------------------------------------------------- login

  /**
   * The login password rule: the password is the stored one, and
   * case-insensitively it is the username or the part of the email before
   * the first `@`.
   */
  predicate PasswordAccepted(password: string, user: User) {
    && password == user.password
    && (Lower(password) == Lower(user.username) || Lower(password) == Lower(BeforeAt(user.email)))
  }

  datatype LoginError =
    | LoginInvalid(issues: seq<Issue>) // the body fails `loginUserSchema`
    | InvalidCredentials               // no user has that email or username
    | PasswordMustMatchName            // the password rule rejects the password

  /**
   * `POST /api/auth/login`: the user whose email or username was given, when
   * the password rule accepts the password; the checks run in that order.
   */
  function Login(st: MemStorage, body: LoginInput): (r: Result<User, LoginError>)
    reads st
    requires st.Valid()
    ensures ParseLogin(body).Failure? ==> r == Failure(LoginInvalid(ParseLogin(body).error))
    ensures ParseLogin(body).Success? ==>
      var found := st.GetUserByEmailOrUsername(body.emailOrUsername.value);
      && (found.None? ==> r == Failure(InvalidCredentials))
      && (found.Some? ==> r == if PasswordAccepted(body.password.value, found.value) then Success(found.value)
                               else Failure(PasswordMustMatchName))
    ensures r.Success? ==> r.value.id in st.users && st.users[r.value.id] == r.value
    ensures r.Success? ==> r.value.password == body.password.value
  {
    match ParseLogin(body)
    case Failure(issues) => Failure(LoginInvalid(issues))
    case Success(login) =>
      match st.GetUserByEmailOrUsername(login.emailOrUsername)
      case None => Failure(InvalidCredentials)
      case Some(user) =>
        if PasswordAccepted(login.password, user) then Success(user) else Failure(PasswordMustMatchName)
  }

  /**
   * The stored password alone is not enough: a user whose password is
   * neither the username nor the email prefix, ignoring case, can never log
   * in, whatever the body.
   */
  lemma LockedOut(st: MemStorage, body: LoginInput, u: User)
    requires st.Valid()
    requires Lower(u.password) != Lower(u.username) && Lower(u.password) != Lower(BeforeAt(u.email))
    ensures Login(st, body) != Success(u)
  {
  }

  /** For the user found, the login succeeds exactly when `PasswordAccepted` holds. */
  lemma LoginSucceedsExactly(st: MemStorage, body: LoginInput, u: User)
    requires st.Valid() && ParseLogin(body).Success?
    requires st.GetUserByEmailOrUsername(body.emailOrUsername.value) == Some(u)
    ensures Login(st, body) == Success(u) <==> PasswordAccepted(body.password.value, u)
    ensures Login(st, body).Success? ==> Login(st, body) == Success(u)
  {
  }

  /**
   * The name comparison ignores case: a password spelling the username or
   * the email prefix with any of its letters changed in case is accepted.
   */
  lemma NameMatchIgnoresCase(u: User, name: string)
    requires name == u.username || name == BeforeAt(u.email)
    requires |u.password| == |name|
    requires forall i :: 0 <= i < |name| ==>
      u.password[i] == name[i] || u.password[i] == UpperChar(name[i]) || u.password[i] == LowerChar(name[i])
    ensures PasswordAccepted(u.password, u)
  {
    forall i | 0 <= i < |name| ensures Lower(u.password)[i] == Lower(name)[i] {
      assert LowerChar(UpperChar(name[i])) == LowerChar(name[i]);
    }
    assert Lower(u.password) == Lower(name);
  }

  // ---------------------------------------------------------------- friend requests

  /**
   * `friendCode.trim().toUpperCase()`: the code with the whitespace around it
   * cut off and its letters upper-cased. What is left neither starts nor ends
   * with whitespace and holds no lower-case ASCII letter.
   */
  function CleanFriendCode(code: string): (r: string)
    ensures r == [] || (!IsWhitespace(r[0]) && !IsWhitespace(r[|r| - 1]))
    ensures forall i :: 0 <= i < |r| ==> !('a' <= r[i] <= 'z')
    ensures Canonical(r)
  {
    UpperTrimClean(code);
    Upper(Trim(code))
  }

  /** Cleaning a code that is already clean changes nothing. */
  lemma CleanFriendCodeIdempotent(code: string)
    ensures CleanFriendCode(CleanFriendCode(code)) == CleanFriendCode(code)
  {
    UpperTrimIdempotent(code);
  }

  /** The clean codes are exactly the `Canonical` ones. */
  lemma CleanCodesAreCanonical(c: string)
    ensures CleanFriendCode(c) == c <==> Canonical(c)
  {
    CanonicalIsFixedPoint(c);
  }

  /**
   * A clean code typed in any mix of cases and padded with whitespace cleans
   * to that code, so it finds the same user.
   */
  lemma AnyCaseAndPaddingFindSameCode(w1: string, typed: string, w2: string, c: string)
    requires forall i :: 0 <= i < |w1| ==> IsWhitespace(w1[i])
    requires forall i :: 0 <= i < |w2| ==> IsWhitespace(w2[i])
    requires Canonical(c) && Upper(typed) == c
    ensures CleanFriendCode(w1 + typed + w2) == c
  {
    UpperTrimPadded(w1, typed, w2);
  }

  /** In particular the lower-case spelling of a clean code finds it. */
  lemma LowerCaseCodeFindsSameCode(c: string)
    requires Canonical(c)
    ensures CleanFriendCode(Lower(c)) == c
  {
    UpperTrimOfLower(c);
  }

  datatype FriendRequestError =
    | FriendInvalid(issues: seq<Issue>) // the body fails `addFriendSchema`
    | NoUserWithCode                    // no user has the cleaned code
    | CannotAddYourself                 // the code is the sender's own
    | AlreadySent                       // the existing friendship is pending
    | AlreadyFriends                    // the existing friendship is accepted

  /**
   * The checks of `POST /api/user/:id/friends`, in order: the user with that
   * code exists, is not the sender, and has no pending or accepted friendship
   * with the sender. Any other status of an existing friendship, `rejected`
   * for one, lets a new request through.
   */
  function FriendRequestCheck(userId: int, friend: Option<User>, existing: Option<Friendship>): (r: Result<User, FriendRequestError>)
    ensures friend.None? ==> r == Failure(NoUserWithCode)
    ensures friend.Some? && friend.value.id == userId ==> r == Failure(CannotAddYourself)
    ensures r.Success? <==>
      && friend.Some? && friend.value.id != userId
      && (existing.None? || (existing.value.status != "pending" && existing.value.status != "accepted"))
    ensures r.Success? ==> r.value == friend.value
    ensures r == Failure(AlreadySent) <==> friend.Some? && friend.value.id != userId && existing.Some? && existing.value.status == "pending"
    ensures r == Failure(AlreadyFriends) <==> friend.Some? && friend.value.id != userId && existing.Some? && existing.value.status == "accepted"
  {
    if friend.None? then Failure(NoUserWithCode)
    else if friend.value.id == userId then Failure(CannotAddYourself)
    else if existing.Some? && existing.value.status == "pending" then Failure(AlreadySent)
    else if existing.Some? && existing.value.status == "accepted" then Failure(AlreadyFriends)
    else Success(friend.value)
  }

  /** What `POST /api/user/:id/friends` decides before it writes: the user to befriend, or why not. */
  function FriendRequestDecision(st: MemStorage, userId: int, body: AddFriendInput): (r: Result<User, FriendRequestError>)
    reads st
    requires st.Valid()
    ensures ParseAddFriend(body).Failure? ==> r == Failure(FriendInvalid(ParseAddFriend(body).error))
    ensures r.Success? ==>
      && r.value.id in st.users && st.users[r.value.id] == r.value
      && r.value.friendCode == CleanFriendCode(body.friendCode.value) && r.value.id != userId
    ensures r.Success? ==>
      var existing := st.GetFriendship(userId, r.value.id);
      existing.None? || (existing.value.status != "pending" && existing.value.status != "accepted")
  {
    match ParseAddFriend(body)
    case Failure(issues) => Failure(FriendInvalid(issues))
    case Success(code) =>
      var friend := st.GetUserByFriendCode(CleanFriendCode(code));
      if friend.None? || friend.value.id == userId then FriendRequestCheck(userId, friend, None)
      else FriendRequestCheck(userId, friend, st.GetFriendship(userId, friend.value.id))
  }

  /**
   * `POST /api/user/:id/friends`: when `FriendRequestDecision` lets the
   * request through, a fresh pending friendship from the sender to the user
   * with that code is stored and returned with that user; otherwise the store
   * is unchanged.
   */
  method AddFriend(st: MemStorage, userId: int, body: AddFriendInput, now: int) returns (r: Result<(Friendship, User), FriendRequestError>)
    requires st.Valid()
    modifies st
    ensures st.Valid()
    ensures var d := old(FriendRequestDecision(st, userId, body));
      && (d.Failure? ==> r == Failure(d.error) && st.State() == old(st.State()))
      && (d.Success? ==>
            && r.Success? && r.value.1 == d.value
            && r.value.0 == Friendship(old(st.currentFriendshipId), userId, d.value.id, "pending", now)
            && st.State() == old(st.State()).(friendships := old(st.friendships)[r.value.0.id := r.value.0],
                                              nextFriendship := old(st.currentFriendshipId) + 1))
  {
    var decision := FriendRequestDecision(st, userId, body);
    if decision.Failure? {
      return Failure(decision.error);
    }
    var friendship := st.CreateFriendRequest(userId, decision.value.id, now);
    r := Success((friendship, decision.value));
  }

  /**
   * `getFriendship` returns the oldest friendship between two users, so once
   * that one is rejected it keeps being the one found: sending the same
   * request twice stores two pending friendships, and neither is refused as
   * already sent.
   */
  method RequestTwiceAfterRejection(st: MemStorage, userId: int, body: AddFriendInput, now: int)
    returns (first: Result<(Friendship, User), FriendRequestError>, second: Result<(Friendship, User), FriendRequestError>)
    requires st.Valid()
    requires FriendRequestDecision(st, userId, body).Success?
    requires st.GetFriendship(userId, FriendRequestDecision(st, userId, body).value.id).Some?
    modifies st
    ensures st.Valid()
    ensures first.Success? && second.Success?
    ensures first.value.0.status == "pending" && second.value.0.status == "pending"
    ensures first.value.0.id != second.value.0.id && first.value.1 == second.value.1
  {
    var friend := FriendRequestDecision(st, userId, body).value;
    ghost var oldest := st.GetFriendship(userId, friend.id).value;
    ghost var users := st.users;
    assert st.GetUserByFriendCode(friend.friendCode) == Some(friend);
    ghost var before := st.friendships;
    ghost var next := st.currentFriendshipId;
    first := AddFriend(st, userId, body, now);
    assert st.users == users && st.friendships == before[next := first.value.0];
    AdmittedAgain(st, userId, body, friend, oldest, before, next, first.value.0);
    second := AddFriend(st, userId, body, now);
  }

  /**
   * The friendship of smallest id between two users stays the one
   * `getFriendship` finds while the table only gains larger ids.
   */
  lemma OldestStaysFirst(st: MemStorage, before: map<int, Friendship>, userId: int, friendId: int, oldest: Friendship)
    requires st.Valid()
    requires oldest.id in before && before[oldest.id] == oldest && Links(oldest, (userId, friendId))
    requires forall k :: k in before && k < oldest.id ==> !Links(before[k], (userId, friendId))
    requires forall k :: k in before ==> k in st.friendships && st.friendships[k] == before[k]
    requires forall k :: k in st.friendships && k !in before ==> k > oldest.id
    ensures st.GetFriendship(userId, friendId) == Some(oldest)
  {
    assert oldest.id in st.friendships;
  }

  /** A request whose target is still found by code and whose oldest friendship is neither pending nor accepted is admitted. */
  lemma StillAdmitted(st: MemStorage, userId: int, body: AddFriendInput, friend: User, oldest: Friendship)
    requires st.Valid() && NonEmpty(body.friendCode)
    requires friend.id in st.users && st.users[friend.id] == friend && friend.id != userId
    requires friend.friendCode == CleanFriendCode(body.friendCode.value)
    requires forall k :: k in st.users && k < friend.id ==> st.users[k].friendCode != friend.friendCode
    requires st.GetFriendship(userId, friend.id) == Some(oldest)
    requires oldest.status != "pending" && oldest.status != "accepted"
    ensures FriendRequestDecision(st, userId, body) == Success(friend)
  {
    assert st.GetUserByFriendCode(friend.friendCode) == Some(friend);
  }

  /**
   * After one more friendship of the next id is stored, a request that was
   * admitted because of `oldest` is admitted again.
   */
  lemma AdmittedAgain(st: MemStorage, userId: int, body: AddFriendInput, friend: User, oldest: Friendship,
                      before: map<int, Friendship>, next: int, added: Friendship)
    requires st.Valid() && NonEmpty(body.friendCode)
    requires friend.id in st.users && st.users[friend.id] == friend && friend.id != userId
    requires friend.friendCode == CleanFriendCode(body.friendCode.value)
    requires forall k :: k in st.users && k < friend.id ==> st.users[k].friendCode != friend.friendCode
    requires Dense(before, next, FriendshipId) && added.id == next && st.friendships == before[next := added]
    requires oldest.id in before && before[oldest.id] == oldest && Links(oldest, (userId, friend.id))
    requires forall k :: k in before && k < oldest.id ==> !Links(before[k], (userId, friend.id))
    requires oldest.status != "pending" && oldest.status != "accepted"
    ensures FriendRequestDecision(st, userId, body) == Success(friend)
  {
    DenseAppend(before, next, FriendshipId, added);
    OldestStaysFirst(st, before, userId, friend.id, oldest);
    StillAdmitted(st, userId, body, friend, oldest);
  }

  /** The statuses an answer to a friend request may set. */
  predicate AllowedFriendshipStatus(status: Option<string>) {
    status == Some("accepted") || status == Some("rejected")
  }

  datatype FriendStatusError =
    | InvalidStatus   // the status is neither `accepted` nor `rejected`
    | RequestNotFound // the two users have no friendship

  /**
   * `PATCH /api/user/:id/friends/:friendId`: a status other than `accepted`
   * or `rejected` is refused before the store is touched; otherwise the
   * friendship between the two users, in either direction, takes the status.
   */
  method AnswerFriendRequest(st: MemStorage, userId: int, friendId: int, status: Option<string>) returns (r: Result<string, FriendStatusError>)
    requires st.Valid()
    modifies st
    ensures st.Valid()
    ensures !AllowedFriendshipStatus(status) ==> r == Failure(InvalidStatus) && st.State() == old(st.State())
    ensures AllowedFriendshipStatus(status) && old(st.GetFriendship(userId, friendId)).None? ==>
      r == Failure(RequestNotFound) && st.State() == old(st.State())
    ensures AllowedFriendshipStatus(status) && old(st.GetFriendship(userId, friendId)).Some? ==>
      && r == Success(status.value)
      && var k := old(st.GetFriendship(userId, friendId)).value.id;
         st.State() == old(st.State()).(friendships := old(st.friendships)[k := old(st.friendships)[k].(status := status.value)])
  {
    if !AllowedFriendshipStatus(status) {
      return Failure(InvalidStatus);
    }
    var success := st.UpdateFriendshipStatus(userId, friendId, status.value);
    if !success {
      return Failure(RequestNotFound);
    }
    r := Success(status.value);
  }

  // ---------------------------------------------------------------- direct messages over HTTP

  /** A session user id counts only when it is present and not 0. */
  predicate SignedIn(session: Option<int>) {
    session.Some? && session.value != 0
  }

  datatype SendError =
    | SendInvalid(issues: seq<Issue>) // the body fails `sendMessageSchema`
    | NotAuthenticated                // no user id in the session

  /**
   * `POST /api/messages`: the message is stored with the session's user as
   * sender, whatever `senderId` the body carries.
   */
  method PostMessage(st: MemStorage, session: Option<int>, body: SendMessageInput, now: int) returns (r: Result<DirectMessage, SendError>)
    requires st.Valid()
    modifies st
    ensures st.Valid()
    ensures ParseSendMessage(body).Failure? ==> r == Failure(SendInvalid(ParseSendMessage(body).error)) && st.State() == old(st.State())
    ensures ParseSendMessage(body).Success? && !SignedIn(session) ==> r == Failure(NotAuthenticated) && st.State() == old(st.State())
    ensures ParseSendMessage(body).Success? && SignedIn(session) ==>
      && r.Success?
      && r.value == DirectMessage(old(st.currentMessageId), session.value, body.receiverId.value, body.message.value, now)
      && st.State() == old(st.State()).(messages := old(st.messages)[r.value.id := r.value], nextMessage := old(st.currentMessageId) + 1)
  {
    var parsed := ParseSendMessage(body);
    if parsed.Failure? {
      return Failure(SendInvalid(parsed.error));
    }
    if !SignedIn(session) {
      return Failure(NotAuthenticated);
    }
    var message := st.SendMessage(session.value, parsed.value.receiverId, parsed.value.message, now);
    r := Success(message);
  }

  // ---------------------------------------------------------------- voice calls over HTTP

  /**
   * The status a call action moves the caller's live call to: `accept` makes
   * it `active`, `reject` and `end` make it `ended`; `start` is not an update
   * (it creates a call) and has no status here.
   */
  function NewCallStatus(action: CallAction): (r: Option<string>)
    ensures r == Some("active") <==> action == Accept
    ensures r == Some("ended") <==> action == Reject || action == End
    ensures r.None? <==> action == Start
  {
    match action
    case Accept => Some("active")
    case Reject => Some("ended")
    case End => Some("ended")
    case Start => None
  }

  datatype CallError =
    | CallInvalid(issues: seq<Issue>) // the body fails `voiceCallSchema`
    | CallNotAuthenticated            // no user id in the session
    | NoActiveCall                    // the caller has no ringing or active call

  datatype CallReply =
    | Started(call: VoiceCall)      // `start` created this call
    | StatusSet(status: string)     // the live call took this status

  /**
   * `POST /api/voice-call`: `start` stores a fresh ringing call from the
   * session's user; any other action finds the user's first live call and
   * sets the status `NewCallStatus` gives, or answers `NoActiveCall` and
   * changes nothing.
   */
  method VoiceCallAction(st: MemStorage, session: Option<int>, body: VoiceCallInput, now: int) returns (r: Result<CallReply, CallError>)
    requires st.Valid()
    modifies st
    ensures st.Valid()
    ensures ParseVoiceCall(body).Failure? ==> r == Failure(CallInvalid(ParseVoiceCall(body).error)) && st.State() == old(st.State())
    ensures ParseVoiceCall(body).Success? && !SignedIn(session) ==> r == Failure(CallNotAuthenticated) && st.State() == old(st.State())
    ensures ParseVoiceCall(body).Success? && SignedIn(session) && ParseVoiceCall(body).value.action == Start ==>
      && r.Success? && r.value.Started?
      && r.value.call == VoiceCall(old(st.currentVoiceCallId), session.value, body.receiverId, "calling", now)
      && st.State() == old(st.State()).(voiceCalls := old(st.voiceCalls)[r.value.call.id := r.value.call],
                                        nextVoiceCall := old(st.currentVoiceCallId) + 1)
    ensures ParseVoiceCall(body).Success? && SignedIn(session) && ParseVoiceCall(body).value.action != Start ==>
      var live := old(st.GetActiveVoiceCall(session.value));
      && (live.None? ==> r == Failure(NoActiveCall) && st.State() == old(st.State()))
      && (live.Some? ==>
            var status := NewCallStatus(ParseVoiceCall(body).value.action).value;
            && r == Success(StatusSet(status))
            && st.State() == old(st.State()).(voiceCalls := old(st.voiceCalls)[live.value.id := live.value.(status := status)]))
  {
    var parsed := ParseVoiceCall(body);
    if parsed.Failure? {
      return Failure(CallInvalid(parsed.error));
    }
    if !SignedIn(session) {
      return Failure(CallNotAuthenticated);
    }
    var callerId := session.value;
    if parsed.value.action == Start {
      var call := st.CreateVoiceCall(callerId, parsed.value.receiverId, now);
      return Success(Started(call));
    }
    var activeCall := st.GetActiveVoiceCall(callerId);
    if activeCall.None? {
      return Failure(NoActiveCall);
    }
    var newStatus := if parsed.value.action == Accept then "active" else "ended";
    var _ := st.UpdateVoiceCallStatus(activeCall.value.id, newStatus);
    r := Success(StatusSet(newStatus));
  }
}
