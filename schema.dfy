/**
 * The records shared by client and server, and the validation schemas the
 * HTTP handlers parse request bodies with. A request body is given with one
 * `Option` per field (`None` when the field is absent); a validator returns
 * either the parsed value or the list of issues, one per offending field in
 * the order the schema declares its fields.
 */
module Schema {
  import opened Wrappers

  /** A row of the users table. */
  datatype User = User(
    id: int,
    username: string,
    email: string,
    password: string,
    displayName: Option<string>,
    avatar: Option<string>,
    friendCode: string,
    about: Option<string>)

  /** A row of the friendships table: `userId` sent the request to `friendId`. */
  datatype Friendship = Friendship(id: int, userId: int, friendId: int, status: string, createdAt: int)

  /** A row of the direct-messages table; `createdAt` is a clock reading in milliseconds. */
  datatype DirectMessage = DirectMessage(id: int, senderId: int, receiverId: int, message: string, createdAt: int)

  /** A row of the voice-calls table. The receiver is absent when the request named none. */
  datatype VoiceCall = VoiceCall(id: int, callerId: int, receiverId: Option<int>, status: string, createdAt: int)

  /** What is wrong with one field. */
  datatype IssueKind =
    | Required                  // the field is absent
    | TooSmall(message: string) // a string shorter than its `min(1)`
    | InvalidEnum              // a value outside the field's `enum`
    | Custom(message: string)   // a failed `refine`

  datatype Issue = Issue(path: string, kind: IssueKind)

  /** A string field given and at least one character long. */
  predicate NonEmpty(v: Option<string>) {
    v.Some? && |v.value| >= 1
  }

  /** The issue of a required `z.string()` field. */
  function StringIssues(path: string, v: Option<string>): seq<Issue> {
    if v.None? then [Issue(path, Required)] else []
  }

  /** The issues of a required `z.string().min(1, message)` field. */
  function TextIssues(path: string, v: Option<string>, message: string): seq<Issue> {
    if v.None? then [Issue(path, Required)]
    else if |v.value| < 1 then [Issue(path, TooSmall(message))]
    else []
  }

  /** The issue of a required `z.number()` field. */
  function NumberIssues(path: string, v: Option<int>): seq<Issue> {
    if v.None? then [Issue(path, Required)] else []
  }

  // ---------------------------------------------------------------- registration

  /** A registration body. `displayName` may be absent (`None`) or `null` (`Some(None)`). */
  datatype RegisterInput = RegisterInput(
    username: Option<string>,
    email: Option<string>,
    password: Option<string>,
    displayName: Option<Option<string>>,
    confirmPassword: Option<string>)

  datatype Registration = Registration(
    username: string,
    email: string,
    password: string,
    displayName: Option<string>,
    confirmPassword: string)

  /** Every required field is a string and the two passwords are equal. */
  predicate ValidRegistration(x: RegisterInput) {
    && x.username.Some? && x.email.Some? && x.password.Some? && x.confirmPassword.Some?
    && x.password.value == x.confirmPassword.value
  }

  /** The message the password check attaches to `confirmPassword`. */
  const PasswordsDontMatch := "Passwords don't match"

  /**
   * `insertUserSchema`: the fields picked from the users table plus
   * `confirmPassword`, refined by `password == confirmPassword`. The
   * refinement runs only once every field has parsed.
   */
  function ParseRegistration(x: RegisterInput): (r: Result<Registration, seq<Issue>>)
    ensures r.Success? <==> ValidRegistration(x)
    ensures r.Success? ==>
              && r.value.username == x.username.value && r.value.email == x.email.value
              && r.value.password == x.password.value == r.value.confirmPassword
              && r.value.displayName == (if x.displayName.Some? then x.displayName.value else None)
    ensures r.Failure? && x.username.Some? && x.email.Some? && x.password.Some? && x.confirmPassword.Some?
      ==> r.error == [Issue("confirmPassword", Custom(PasswordsDontMatch))]
    ensures r.Failure? ==> r.error != []
  {
    var issues := StringIssues("username", x.username) + StringIssues("email", x.email)
      + StringIssues("password", x.password) + StringIssues("confirmPassword", x.confirmPassword);
    if issues != [] then Failure(issues)
    else if x.password.value != x.confirmPassword.value then
      Failure([Issue("confirmPassword", Custom(PasswordsDontMatch))])
    else
      Success(Registration(x.username.value, x.email.value, x.password.value,
        if x.displayName.Some? then x.displayName.value else None, x.confirmPassword.value))
  }

  // ---------------------------------------------------------------- login

  datatype LoginInput = LoginInput(emailOrUsername: Option<string>, password: Option<string>)
  datatype Login = Login(emailOrUsername: string, password: string)

  /** `loginUserSchema`: both fields present and non-empty. */
  function ParseLogin(x: LoginInput): (r: Result<Login, seq<Issue>>)
    ensures r.Success? <==> NonEmpty(x.emailOrUsername) && NonEmpty(x.password)
    ensures r.Success? ==> r.value == Login(x.emailOrUsername.value, x.password.value)
    ensures r.Failure? ==> forall i :: i in r.error ==>
      || (i.path == "emailOrUsername" && !NonEmpty(x.emailOrUsername))
      || (i.path == "password" && !NonEmpty(x.password))
  {
    var issues := TextIssues("emailOrUsername", x.emailOrUsername, "Email or username is required")
      + TextIssues("password", x.password, "Password is required");
    if issues != [] then Failure(issues) else Success(Login(x.emailOrUsername.value, x.password.value))
  }

  // ---------------------------------------------------------------- friends

  datatype AddFriendInput = AddFriendInput(friendCode: Option<string>)

  /** `addFriendSchema`: a non-empty friend code, checked before any trimming. */
  function ParseAddFriend(x: AddFriendInput): (r: Result<string, seq<Issue>>)
    ensures r.Success? <==> NonEmpty(x.friendCode)
    ensures r.Success? ==> r.value == x.friendCode.value
    ensures r.Failure? ==> forall i :: i in r.error ==> i.path == "friendCode"
  {
    var issues := TextIssues("friendCode", x.friendCode, "Friend code is required");
    if issues != [] then Failure(issues) else Success(x.friendCode.value)
  }

  // ---------------------------------------------------------------- messages

  datatype SendMessageInput = SendMessageInput(senderId: Option<int>, receiverId: Option<int>, message: Option<string>)
  datatype SendMessage = SendMessage(senderId: Option<int>, receiverId: int, message: string)

  /** `sendMessageSchema`: `senderId` optional, `receiverId` required, a non-empty message. */
  function ParseSendMessage(x: SendMessageInput): (r: Result<SendMessage, seq<Issue>>)
    ensures r.Success? <==> x.receiverId.Some? && NonEmpty(x.message)
    ensures r.Success? ==> r.value == SendMessage(x.senderId, x.receiverId.value, x.message.value)
    ensures r.Failure? ==> forall i :: i in r.error ==>
      || (i.path == "receiverId" && x.receiverId.None?)
      || (i.path == "message" && !NonEmpty(x.message))
  {
    var issues := NumberIssues("receiverId", x.receiverId)
      + TextIssues("message", x.message, "Message cannot be empty");
    if issues != [] then Failure(issues) else Success(SendMessage(x.senderId, x.receiverId.value, x.message.value))
  }

  // ---------------------------------------------------------------- voice calls

  datatype CallAction = Start | Accept | Reject | End

  /** Membership in `z.enum(["start", "accept", "reject", "end"])`. */
  function ParseCallAction(s: string): (r: Option<CallAction>)
    ensures r.Some? <==> s in ["start", "accept", "reject", "end"]
    ensures r == Some(Start) <==> s == "start"
    ensures r == Some(Accept) <==> s == "accept"
    ensures r == Some(Reject) <==> s == "reject"
    ensures r == Some(End) <==> s == "end"
  {
    if s == "start" then Some(Start)
    else if s == "accept" then Some(Accept)
    else if s == "reject" then Some(Reject)
    else if s == "end" then Some(End)
    else None
  }

  datatype VoiceCallInput = VoiceCallInput(receiverId: Option<int>, groupId: Option<int>, action: Option<string>)
  datatype VoiceCallRequest = VoiceCallRequest(receiverId: Option<int>, groupId: Option<int>, action: CallAction)

  /** `voiceCallSchema`: optional receiver and group, an action from the enum. */
  function ParseVoiceCall(x: VoiceCallInput): (r: Result<VoiceCallRequest, seq<Issue>>)
    ensures r.Success? <==> x.action.Some? && x.action.value in ["start", "accept", "reject", "end"]
    ensures r.Success? ==>
              && r.value.receiverId == x.receiverId && r.value.groupId == x.groupId
              && Some(r.value.action) == ParseCallAction(x.action.value)
    ensures r.Failure? ==> r.error == [Issue("action", if x.action.None? then Required else InvalidEnum)]
  {
    if x.action.None? then Failure([Issue("action", Required)])
    else match ParseCallAction(x.action.value)
      case None => Failure([Issue("action", InvalidEnum)])
      case Some(a) => Success(VoiceCallRequest(x.receiverId, x.groupId, a))
  }

  // ---------------------------------------------------------------- groups

  datatype CreateGroupInput = CreateGroupInput(name: Option<string>, description: Option<string>, avatar: Option<string>)
  datatype CreateGroup = CreateGroup(name: string, description: Option<string>, avatar: Option<string>)

  /** `createGroupSchema`: a non-empty name; description and avatar optional. */
  function ParseCreateGroup(x: CreateGroupInput): (r: Result<CreateGroup, seq<Issue>>)
    ensures r.Success? <==> NonEmpty(x.name)
    ensures r.Success? ==> r.value == CreateGroup(x.name.value, x.description, x.avatar)
    ensures r.Failure? ==> forall i :: i in r.error ==> i.path == "name"
  {
    var issues := TextIssues("name", x.name, "Group name is required");
    if issues != [] then Failure(issues) else Success(CreateGroup(x.name.value, x.description, x.avatar))
  }

  datatype Role = Member | Admin

  datatype AddGroupMemberInput = AddGroupMemberInput(userId: Option<int>, role: Option<string>)
  datatype AddGroupMember = AddGroupMember(userId: int, role: Role)

  /** `addGroupMemberSchema`: a user id and a role from `member`/`admin`, `member` when absent. */
  function ParseAddGroupMember(x: AddGroupMemberInput): (r: Result<AddGroupMember, seq<Issue>>)
    ensures r.Success? <==> x.userId.Some? && (x.role.None? || x.role.value in ["member", "admin"])
    ensures r.Success? ==> r.value.userId == x.userId.value
    ensures r.Success? ==> (r.value.role == Admin <==> x.role == Some("admin"))
    ensures r.Failure? ==> forall i :: i in r.error ==>
      || (i == Issue("userId", Required) && x.userId.None?)
      || (i == Issue("role", InvalidEnum) && x.role.Some?)
  {
    var roleIssues :=
      if x.role.None? || x.role.value == "member" || x.role.value == "admin" then []
      else [Issue("role", InvalidEnum)];
    var issues := NumberIssues("userId", x.userId) + roleIssues;
    if issues != [] then Failure(issues)
    else Success(AddGroupMember(x.userId.value, if x.role == Some("admin") then Admin else Member))
  }

  datatype SendGroupMessageInput = SendGroupMessageInput(groupId: Option<int>, message: Option<string>)
  datatype SendGroupMessage = SendGroupMessage(groupId: int, message: string)

  /** `sendGroupMessageSchema`: a group id and a non-empty message. */
  function ParseSendGroupMessage(x: SendGroupMessageInput): (r: Result<SendGroupMessage, seq<Issue>>)
    ensures r.Success? <==> x.groupId.Some? && NonEmpty(x.message)
    ensures r.Success? ==> r.value == SendGroupMessage(x.groupId.value, x.message.value)
    ensures r.Failure? ==> forall i :: i in r.error ==>
      || (i.path == "groupId" && x.groupId.None?)
      || (i.path == "message" && !NonEmpty(x.message))
  {
    var issues := NumberIssues("groupId", x.groupId)
      + TextIssues("message", x.message, "Message cannot be empty");
    if issues != [] then Failure(issues) else Success(SendGroupMessage(x.groupId.value, x.message.value))
  }
}
