/**
 * `MemStorage`, the server's in-memory store: seven tables, each a map from
 * id to row, and seven counters that hand out the ids. Every table starts
 * empty with its counter at 1; creating a row takes the counter's value as
 * the new id and increments the counter, and rows are never deleted.
 *
 * Clock readings (`new Date()`) are the `now` parameter, in milliseconds.
 */
module Storage {
  import opened Wrappers
  import opened Tables
  import opened Sorting
  import opened Schema

  // ---------------------------------------------------------------- the rows storage.ts declares

  datatype Group = Group(id: int, name: string, ownerId: int, createdAt: int)
  datatype GroupMember = GroupMember(id: int, groupId: int, userId: int, joinedAt: int)
  datatype GroupMessage = GroupMessage(id: int, groupId: int, senderId: int, message: string, createdAt: int)

  /** What `createUser` receives: a registration without `confirmPassword`, plus a friend code. */
  datatype NewUser = NewUser(username: string, email: string, password: string, displayName: Option<string>, friendCode: string)

  /** One field of a partial update: left out of the update, or given a new value. */
  datatype Patch<T> = Keep | Put(value: T)

  /** The fields `updateUser` may overwrite. */
  datatype ProfileUpdate = ProfileUpdate(
    displayName: Patch<Option<string>>,
    avatar: Patch<Option<string>>,
    about: Patch<Option<string>>,
    friendCode: Patch<string>)

  /** An element of `getFriendsByUserId`: the other party with the friendship's details. */
  datatype FriendEntry = FriendEntry(friend: User, status: string, isRequestReceiver: bool, friendshipId: int)

  /** Every table and counter of the store, as one value. */
  datatype Snapshot = Snapshot(
    users: map<int, User>, friendships: map<int, Friendship>, messages: map<int, DirectMessage>,
    voiceCalls: map<int, VoiceCall>, groups: map<int, Group>, groupMembers: map<int, GroupMember>,
    groupMessages: map<int, GroupMessage>,
    nextUser: int, nextFriendship: int, nextMessage: int, nextVoiceCall: int,
    nextGroup: int, nextGroupMember: int, nextGroupMessage: int)

  // ---------------------------------------------------------------- ids, clocks and search conditions

  function UserId(u: User): int { u.id }
  function FriendshipId(f: Friendship): int { f.id }
  function MessageId(m: DirectMessage): int { m.id }
  function VoiceCallId(v: VoiceCall): int { v.id }
  function GroupId(g: Group): int { g.id }
  function GroupMemberId(gm: GroupMember): int { gm.id }
  function GroupMessageId(m: GroupMessage): int { m.id }
  function EntryId(e: FriendEntry): int { e.friendshipId }
  function MessageTime(m: DirectMessage): int { m.createdAt }
  function GroupMessageTime(m: GroupMessage): int { m.createdAt }

  predicate HasEmail(u: User, email: string) { u.email == email }
  predicate HasUsername(u: User, username: string) { u.username == username }
  predicate HasEmailOrUsername(u: User, s: string) { u.email == s || u.username == s }
  predicate HasFriendCode(u: User, code: string) { u.friendCode == code }

  /** The friendship joins the two users of `pair`, in either direction. */
  predicate Links(f: Friendship, pair: (int, int)) {
    (f.userId == pair.0 && f.friendId == pair.1) || (f.userId == pair.1 && f.friendId == pair.0)
  }

  /** The friendship has `u` on one of its two sides. */
  predicate Involves(f: Friendship, u: int) { f.userId == u || f.friendId == u }

  /** The side of a friendship that is not `u`. */
  function OtherParty(f: Friendship, u: int): int { if f.userId == u then f.friendId else f.userId }

  /** The message went between the two users of `pair`, in either direction. */
  predicate Between(m: DirectMessage, pair: (int, int)) {
    (m.senderId == pair.0 && m.receiverId == pair.1) || (m.senderId == pair.1 && m.receiverId == pair.0)
  }

  /** A call `u` takes part in that is still ringing or under way. */
  predicate LiveCallOf(v: VoiceCall, u: int) {
    (v.callerId == u || v.receiverId == Some(u)) && (v.status == "calling" || v.status == "active")
  }

  predicate MemberIsUser(gm: GroupMember, u: int) { gm.userId == u }
  predicate MemberOfGroup(gm: GroupMember, g: int) { gm.groupId == g }
  predicate GroupListed(g: Group, ids: seq<int>) { g.id in ids }
  predicate UserListed(u: User, ids: seq<int>) { u.id in ids }
  predicate PostedIn(m: GroupMessage, g: int) { m.groupId == g }

  /** `memberships.map(gm => gm.groupId)` */
  function GroupIdsOf(s: seq<GroupMember>): (r: seq<int>)
    ensures |r| == |s| && forall i :: 0 <= i < |s| ==> r[i] == s[i].groupId
  {
    seq(|s|, i requires 0 <= i < |s| => s[i].groupId)
  }

  /** `memberships.map(gm => gm.userId)` */
  function UserIdsOf(s: seq<GroupMember>): (r: seq<int>)
    ensures |r| == |s| && forall i :: 0 <= i < |s| ==> r[i] == s[i].userId
  {
    seq(|s|, i requires 0 <= i < |s| => s[i].userId)
  }

  // ---------------------------------------------------------------- records built by the operations

  /** The user `createUser` stores: `displayName || null`, no avatar, no about text. */
  function NewUserRecord(id: int, data: NewUser): User {
    User(id, data.username, data.email, data.password,
      if data.displayName.Some? && data.displayName.value != "" then data.displayName else None,
      None, data.friendCode, None)
  }

  /** A field after a partial update. */
  function Patched<T>(current: T, p: Patch<T>): T {
    if p.Put? then p.value else current
  }

  /**
   * `{ ...user, ...updates }`: the supplied fields take their new values and
   * every other field, the id above all, keeps its value.
   */
  function Merge(u: User, upd: ProfileUpdate): (r: User)
    ensures r.id == u.id && r.username == u.username && r.email == u.email && r.password == u.password
    ensures upd.displayName.Keep? ==> r.displayName == u.displayName
    ensures upd.displayName.Put? ==> r.displayName == upd.displayName.value
    ensures upd.avatar.Keep? ==> r.avatar == u.avatar
    ensures upd.avatar.Put? ==> r.avatar == upd.avatar.value
    ensures upd.about.Keep? ==> r.about == u.about
    ensures upd.about.Put? ==> r.about == upd.about.value
    ensures upd.friendCode.Keep? ==> r.friendCode == u.friendCode
    ensures upd.friendCode.Put? ==> r.friendCode == upd.friendCode.value
  {
    u.(displayName := Patched(u.displayName, upd.displayName),
       avatar := Patched(u.avatar, upd.avatar),
       about := Patched(u.about, upd.about),
       friendCode := Patched(u.friendCode, upd.friendCode))
  }

  /** What the loop of `getFriendsByUserId` pushes for one friendship: nothing if the other party is not a user. */
  function EntryFor(f: Friendship, users: map<int, User>, u: int): seq<FriendEntry> {
    var other := OtherParty(f, u);
    if other in users then [FriendEntry(users[other], f.status, f.friendId == u, f.id)] else []
  }

  /** The entries the loop of `getFriendsByUserId` has pushed after visiting `fs`. */
  function FriendEntries(fs: seq<Friendship>, users: map<int, User>, u: int): seq<FriendEntry>
    decreases |fs|
  {
    if fs == [] then [] else FriendEntries(fs[..|fs| - 1], users, u) + EntryFor(fs[|fs| - 1], users, u)
  }

  /** Visiting one more friendship appends its entry, if any. */
  lemma FriendEntriesSnoc(fs: seq<Friendship>, f: Friendship, users: map<int, User>, u: int)
    ensures FriendEntries(fs + [f], users, u) == FriendEntries(fs, users, u) + EntryFor(f, users, u)
  {
    assert (fs + [f])[..|fs + [f]| - 1] == fs;
  }

  /**
   * The loop of `getFriendsByUserId`: for each friendship in turn, the other
   * party, when it is a user, is pushed with the friendship's status, whether
   * `u` received the request, and the friendship's id.
   */
  method PushFriendEntries(fs: seq<Friendship>, users: map<int, User>, u: int) returns (friends: seq<FriendEntry>)
    ensures friends == FriendEntries(fs, users, u)
  {
    friends := [];
    var i := 0;
    while i < |fs|
      invariant 0 <= i <= |fs|
      invariant friends == FriendEntries(fs[..i], users, u)
    {
      var friendship := fs[i];
      var friendId := if friendship.userId == u then friendship.friendId else friendship.userId;
      if friendId in users {
        friends := friends + [FriendEntry(users[friendId], friendship.status, friendship.friendId == u, friendship.id)];
      }
      assert fs[..i + 1] == fs[..i] + [friendship];
      FriendEntriesSnoc(fs[..i], friendship, users, u);
      i := i + 1;
    }
    assert fs[..i] == fs;
  }

  /**
   * Each entry is the other party of one of the visited friendships, with that
   * friendship's status and id, flagged as received exactly when `u` is the
   * friendship's `friendId`; and every visited friendship whose other party is
   * a user has its entry.
   */
  lemma {:induction false} FriendEntriesSpec(fs: seq<Friendship>, table: map<int, Friendship>, users: map<int, User>, u: int)
    requires forall i :: 0 <= i < |fs| ==> fs[i].id in table && table[fs[i].id] == fs[i]
    ensures forall e :: e in FriendEntries(fs, users, u) ==>
      && e.friendshipId in table
      && OtherParty(table[e.friendshipId], u) in users
      && e == EntryFor(table[e.friendshipId], users, u)[0]
      && table[e.friendshipId] in fs
    ensures forall i :: 0 <= i < |fs| && OtherParty(fs[i], u) in users ==> EntryFor(fs[i], users, u)[0] in FriendEntries(fs, users, u)
    decreases |fs|
  {
    if fs != [] {
      var init := fs[..|fs| - 1];
      FriendEntriesSpec(init, table, users, u);
      forall i | 0 <= i < |init| ensures init[i] in fs { assert init[i] == fs[i]; }
      forall i | 0 <= i < |fs| - 1 ensures fs[i] == init[i] { }
    }
  }

  /** Visiting friendships in ascending id order lists the entries in ascending friendship id order. */
  lemma {:induction false} FriendEntriesIncreasing(fs: seq<Friendship>, users: map<int, User>, u: int)
    requires Increasing(fs, FriendshipId)
    ensures Increasing(FriendEntries(fs, users, u), EntryId)
    ensures forall e :: e in FriendEntries(fs, users, u) ==> exists i :: 0 <= i < |fs| && fs[i].id == e.friendshipId
    decreases |fs|
  {
    if fs != [] {
      var init := fs[..|fs| - 1];
      assert Increasing(init, FriendshipId);
      FriendEntriesIncreasing(init, users, u);
      forall e | e in FriendEntries(init, users, u) ensures e.friendshipId < fs[|fs| - 1].id {
        var i :| 0 <= i < |init| && init[i].id == e.friendshipId;
        assert init[i] == fs[i];
      }
      forall e | e in FriendEntries(fs, users, u) ensures exists i :: 0 <= i < |fs| && fs[i].id == e.friendshipId {
        if e in FriendEntries(init, users, u) {
          var i :| 0 <= i < |init| && init[i].id == e.friendshipId;
          assert fs[i] == init[i];
        } else {
          assert fs[|fs| - 1].id == e.friendshipId;
        }
      }
    }
  }

  /** `FriendEntries` over the friendships of `u` in a table, stated against the table itself. */
  lemma FriendsOfTable(table: map<int, Friendship>, next: int, users: map<int, User>, u: int)
    requires Dense(table, next, FriendshipId)
    ensures var r := FriendEntries(Filter(Rows(table, next), Involves, u), users, u);
      && (forall e :: e in r ==>
            && e.friendshipId in table
            && var f := table[e.friendshipId];
            && Involves(f, u)
            && OtherParty(f, u) in users
            && e == FriendEntry(users[OtherParty(f, u)], f.status, f.friendId == u, f.id))
      && (forall k :: k in table && Involves(table[k], u) && OtherParty(table[k], u) in users ==>
            FriendEntry(users[OtherParty(table[k], u)], table[k].status, table[k].friendId == u, k) in r)
      && Increasing(r, EntryId)
  {
    var fs := Filter(Rows(table, next), Involves, u);
    FilterTable(table, next, FriendshipId, Involves, u);
    assert forall i :: 0 <= i < |fs| ==> fs[i] in fs;
    FriendEntriesSpec(fs, table, users, u);
    FriendEntriesIncreasing(fs, users, u);
    forall k | k in table && Involves(table[k], u) && OtherParty(table[k], u) in users
      ensures EntryFor(table[k], users, u)[0] in FriendEntries(fs, users, u)
    {
      assert table[k] in fs;
      var j :| 0 <= j < |fs| && fs[j] == table[k];
    }
  }

  /** The group ids of the memberships of `u`: exactly the groups some membership joins `u` to. */
  lemma GroupIdsOfUser(table: map<int, GroupMember>, next: int, u: int)
    requires Dense(table, next, GroupMemberId)
    ensures var ids := GroupIdsOf(Filter(Rows(table, next), MemberIsUser, u));
      forall gid :: gid in ids <==> exists k :: k in table && table[k].userId == u && table[k].groupId == gid
  {
    var mine := Filter(Rows(table, next), MemberIsUser, u);
    FilterTable(table, next, GroupMemberId, MemberIsUser, u);
    var ids := GroupIdsOf(mine);
    forall gid | gid in ids
      ensures exists k :: k in table && table[k].userId == u && table[k].groupId == gid
    {
      var i :| 0 <= i < |ids| && ids[i] == gid;
      assert mine[i] in mine;
    }
    forall gid | exists k :: k in table && table[k].userId == u && table[k].groupId == gid
      ensures gid in ids
    {
      var k :| k in table && table[k].userId == u && table[k].groupId == gid;
      assert table[k] in mine;
      var i :| 0 <= i < |mine| && mine[i] == table[k];
      assert ids[i] == gid;
    }
  }

  /** The user ids of the memberships of group `g`: exactly the users some membership joins to `g`. */
  lemma UserIdsOfGroup(table: map<int, GroupMember>, next: int, g: int)
    requires Dense(table, next, GroupMemberId)
    ensures var ids := UserIdsOf(Filter(Rows(table, next), MemberOfGroup, g));
      forall uid :: uid in ids <==> exists k :: k in table && table[k].groupId == g && table[k].userId == uid
  {
    var members := Filter(Rows(table, next), MemberOfGroup, g);
    FilterTable(table, next, GroupMemberId, MemberOfGroup, g);
    var ids := UserIdsOf(members);
    forall uid | uid in ids
      ensures exists k :: k in table && table[k].groupId == g && table[k].userId == uid
    {
      var i :| 0 <= i < |ids| && ids[i] == uid;
      assert members[i] in members;
    }
    forall uid | exists k :: k in table && table[k].groupId == g && table[k].userId == uid
      ensures uid in ids
    {
      var k :| k in table && table[k].groupId == g && table[k].userId == uid;
      assert table[k] in members;
      var i :| 0 <= i < |members| && members[i] == table[k];
      assert ids[i] == uid;
    }
  }

  /** `getGroupsForUser` over two tables: the groups some membership of `u` names, in id order. */
  lemma GroupsOfUser(groups: map<int, Group>, nextGroup: int, members: map<int, GroupMember>, nextMember: int, u: int)
    requires Dense(groups, nextGroup, GroupId) && Dense(members, nextMember, GroupMemberId)
    ensures var r := Filter(Rows(groups, nextGroup), GroupListed, GroupIdsOf(Filter(Rows(members, nextMember), MemberIsUser, u)));
      && (forall g :: g in r <==>
            && g.id in groups && groups[g.id] == g
            && exists k :: k in members && members[k].userId == u && members[k].groupId == g.id)
      && Increasing(r, GroupId)
  {
    var ids := GroupIdsOf(Filter(Rows(members, nextMember), MemberIsUser, u));
    GroupIdsOfUser(members, nextMember, u);
    FilterTable(groups, nextGroup, GroupId, GroupListed, ids);
    var r := Filter(Rows(groups, nextGroup), GroupListed, ids);
    forall g ensures g in r <==> g.id in groups && groups[g.id] == g && g.id in ids {
      assert GroupListed(g, ids) == (g.id in ids);
    }
  }

  /** `getGroupMembers` over two tables: the users some membership of group `g` names, in id order. */
  lemma MembersOfGroup(users: map<int, User>, nextUser: int, members: map<int, GroupMember>, nextMember: int, g: int)
    requires Dense(users, nextUser, UserId) && Dense(members, nextMember, GroupMemberId)
    ensures var r := Filter(Rows(users, nextUser), UserListed, UserIdsOf(Filter(Rows(members, nextMember), MemberOfGroup, g)));
      && (forall x :: x in r <==>
            && x.id in users && users[x.id] == x
            && exists k :: k in members && members[k].groupId == g && members[k].userId == x.id)
      && Increasing(r, UserId)
  {
    var ids := UserIdsOf(Filter(Rows(members, nextMember), MemberOfGroup, g));
    UserIdsOfGroup(members, nextMember, g);
    FilterTable(users, nextUser, UserId, UserListed, ids);
    var r := Filter(Rows(users, nextUser), UserListed, ids);
    forall x ensures x in r <==> x.id in users && users[x.id] == x && x.id in ids {
      assert UserListed(x, ids) == (x.id in ids);
    }
  }

  // ---------------------------------------------------------------- the store

  class MemStorage {
    var users: map<int, User>
    var friendships: map<int, Friendship>
    var messages: map<int, DirectMessage>
    var voiceCalls: map<int, VoiceCall>
    var groups: map<int, Group>
    var groupMembers: map<int, GroupMember>
    var groupMessages: map<int, GroupMessage>
    var currentUserId: int
    var currentFriendshipId: int
    var currentMessageId: int
    var currentVoiceCallId: int
    var currentGroupId: int
    var currentGroupMemberId: int
    var currentGroupMessageId: int

    /** Each table holds exactly the ids its counter has handed out, each row under its own id. */
    ghost predicate Valid()
      reads this
    {
      && Dense(users, currentUserId, UserId)
      && Dense(friendships, currentFriendshipId, FriendshipId)
      && Dense(messages, currentMessageId, MessageId)
      && Dense(voiceCalls, currentVoiceCallId, VoiceCallId)
      && Dense(groups, currentGroupId, GroupId)
      && Dense(groupMembers, currentGroupMemberId, GroupMemberId)
      && Dense(groupMessages, currentGroupMessageId, GroupMessageId)
    }

    ghost function State(): Snapshot
      reads this
    {
      Snapshot(users, friendships, messages, voiceCalls, groups, groupMembers, groupMessages,
        currentUserId, currentFriendshipId, currentMessageId, currentVoiceCallId,
        currentGroupId, currentGroupMemberId, currentGroupMessageId)
    }

    constructor ()
      ensures Valid()
      ensures State() == Snapshot(map[], map[], map[], map[], map[], map[], map[], 1, 1, 1, 1, 1, 1, 1)
    {
      users, friendships, messages, voiceCalls := map[], map[], map[], map[];
      groups, groupMembers, groupMessages := map[], map[], map[];
      currentUserId, currentFriendshipId, currentMessageId, currentVoiceCallId := 1, 1, 1, 1;
      currentGroupId, currentGroupMemberId, currentGroupMessageId := 1, 1, 1;
    }

    // ---------------------------------------------------------------- users

    /** `getUser`: a user exists for exactly the ids handed out so far. */
    function GetUser(id: int): (r: Option<User>)
      reads this
      requires Valid()
      ensures r.Some? <==> 1 <= id < currentUserId
      ensures r.Some? ==> r.value.id == id && users[id] == r.value
    {
      if id in users then Some(users[id]) else None
    }

    /** `getUserByEmail`: the user of smallest id with that email, if any. */
    function GetUserByEmail(email: string): (r: Option<User>)
      reads this
      requires Valid()
      ensures r.None? <==> forall k :: k in users ==> users[k].email != email
      ensures r.Some? ==> r.value.id in users && users[r.value.id] == r.value && r.value.email == email
      ensures r.Some? ==> forall k :: k in users && k < r.value.id ==> users[k].email != email
    {
      FirstInTable(users, currentUserId, UserId, HasEmail, email);
      FirstMatch(Rows(users, currentUserId), HasEmail, email)
    }

    /** `getUserByUsername`: the user of smallest id with that username, if any. */
    function GetUserByUsername(username: string): (r: Option<User>)
      reads this
      requires Valid()
      ensures r.None? <==> forall k :: k in users ==> users[k].username != username
      ensures r.Some? ==> r.value.id in users && users[r.value.id] == r.value && r.value.username == username
      ensures r.Some? ==> forall k :: k in users && k < r.value.id ==> users[k].username != username
    {
      FirstInTable(users, currentUserId, UserId, HasUsername, username);
      FirstMatch(Rows(users, currentUserId), HasUsername, username)
    }

    /** `getUserByEmailOrUsername`: the user of smallest id whose email or username is `s`. */
    function GetUserByEmailOrUsername(s: string): (r: Option<User>)
      reads this
      requires Valid()
      ensures r.None? <==> forall k :: k in users ==> users[k].email != s && users[k].username != s
      ensures r.Some? ==> r.value.id in users && users[r.value.id] == r.value && (r.value.email == s || r.value.username == s)
      ensures r.Some? ==> forall k :: k in users && k < r.value.id ==> users[k].email != s && users[k].username != s
    {
      FirstInTable(users, currentUserId, UserId, HasEmailOrUsername, s);
      FirstMatch(Rows(users, currentUserId), HasEmailOrUsername, s)
    }

    /** `getUserByFriendCode`: the user of smallest id with that friend code, if any. */
    function GetUserByFriendCode(code: string): (r: Option<User>)
      reads this
      requires Valid()
      ensures r.None? <==> forall k :: k in users ==> users[k].friendCode != code
      ensures r.Some? ==> r.value.id in users && users[r.value.id] == r.value && r.value.friendCode == code
      ensures r.Some? ==> forall k :: k in users && k < r.value.id ==> users[k].friendCode != code
    {
      FirstInTable(users, currentUserId, UserId, HasFriendCode, code);
      FirstMatch(Rows(users, currentUserId), HasFriendCode, code)
    }

    /**
     * `createUser`: the new user gets the counter's value as its id, which no
     * earlier user has and which is larger than every earlier id; the counter
     * moves on by one, `getUser` now finds the user, and no other table changes.
     */
    method CreateUser(data: NewUser) returns (u: User)
      requires Valid()
      modifies this
      ensures Valid()
      ensures u == NewUserRecord(old(currentUserId), data)
      ensures u.id !in old(users) && forall k :: k in old(users) ==> k < u.id
      ensures u.avatar == None && u.about == None
      ensures u.displayName.None? <==> data.displayName.None? || data.displayName == Some("")
      ensures GetUser(u.id) == Some(u)
      ensures State() == old(State()).(users := old(users)[u.id := u], nextUser := old(currentUserId) + 1)
    {
      var id := currentUserId;
      currentUserId := currentUserId + 1;
      u := NewUserRecord(id, data);
      users := users[id := u];
      DenseAppend(old(users), id, UserId, u);
    }

    /**
     * `updateUser`: an unknown id gives nothing and changes nothing; otherwise
     * the stored user becomes its `Merge` with the update and is returned.
     */
    method UpdateUser(id: int, upd: ProfileUpdate) returns (r: Option<User>)
      requires Valid()
      modifies this
      ensures Valid()
      ensures r.None? <==> id !in old(users)
      ensures r.None? ==> State() == old(State())
      ensures r.Some? ==> r.value == Merge(old(users)[id], upd) && r.value.id == id
      ensures r.Some? ==> State() == old(State()).(users := old(users)[id := r.value])
    {
      if id !in users {
        return None;
      }
      var updated := Merge(users[id], upd);
      DenseReplace(users, currentUserId, UserId, id, updated);
      users := users[id := updated];
      r := Some(updated);
    }

    // ---------------------------------------------------------------- friendships

    /**
     * `getFriendsByUserId`: walks the friendships that involve `u` in id order
     * and, for each one whose other party is a user, pushes that user with the
     * friendship's status, whether `u` received the request, and the
     * friendship's id. The result is exactly those entries, in friendship id
     * order.
     */
    method GetFriendsByUserId(u: int) returns (r: seq<FriendEntry>)
      requires Valid()
      ensures forall e :: e in r ==>
        && e.friendshipId in friendships
        && var f := friendships[e.friendshipId];
        && Involves(f, u)
        && OtherParty(f, u) in users
        && e == FriendEntry(users[OtherParty(f, u)], f.status, f.friendId == u, f.id)
      ensures forall k :: k in friendships && Involves(friendships[k], u) && OtherParty(friendships[k], u) in users ==>
        FriendEntry(users[OtherParty(friendships[k], u)], friendships[k].status, friendships[k].friendId == u, k) in r
      ensures Increasing(r, EntryId)
    {
      var userFriendships := Filter(Rows(friendships, currentFriendshipId), Involves, u);
      r := PushFriendEntries(userFriendships, users, u);
      FriendsOfTable(friendships, currentFriendshipId, users, u);
    }

    /**
     * `createFriendRequest`: stores a fresh friendship from `userId` to
     * `friendId` with status `pending`, and changes nothing else.
     */
    method CreateFriendRequest(userId: int, friendId: int, now: int) returns (f: Friendship)
      requires Valid()
      modifies this
      ensures Valid()
      ensures f == Friendship(old(currentFriendshipId), userId, friendId, "pending", now)
      ensures f.id !in old(friendships) && forall k :: k in old(friendships) ==> k < f.id
      ensures State() == old(State()).(friendships := old(friendships)[f.id := f], nextFriendship := old(currentFriendshipId) + 1)
    {
      var id := currentFriendshipId;
      currentFriendshipId := currentFriendshipId + 1;
      f := Friendship(id, userId, friendId, "pending", now);
      friendships := friendships[id := f];
      DenseAppend(old(friendships), id, FriendshipId, f);
    }

    /**
     * `getFriendship`: the friendship of smallest id between the two users, in
     * either direction; nothing when they have none.
     */
    function GetFriendship(userId: int, friendId: int): (r: Option<Friendship>)
      reads this
      requires Valid()
      ensures r.None? <==> forall k :: k in friendships ==> !Links(friendships[k], (userId, friendId))
      ensures r.Some? ==> r.value.id in friendships && friendships[r.value.id] == r.value && Links(r.value, (userId, friendId))
      ensures r.Some? ==> forall k :: k in friendships && k < r.value.id ==> !Links(friendships[k], (userId, friendId))
    {
      FirstInTable(friendships, currentFriendshipId, FriendshipId, Links, (userId, friendId));
      FirstMatch(Rows(friendships, currentFriendshipId), Links, (userId, friendId))
    }

    /** The friendship `getFriendship(a, b)` finds is the one `getFriendship(b, a)` finds. */
    lemma GetFriendshipSymmetric(a: int, b: int)
      requires Valid()
      ensures GetFriendship(a, b) == GetFriendship(b, a)
    {
      FirstMatchAgrees(Rows(friendships, currentFriendshipId), Links, (a, b), (b, a));
    }

    /**
     * `updateFriendshipStatus`: finds the friendship `getFriendship` finds and
     * sets its status; with none, answers false and changes nothing. By
     * `GetFriendshipSymmetric`, swapping the two users updates the same record.
     */
    method UpdateFriendshipStatus(userId: int, friendId: int, status: string) returns (ok: bool)
      requires Valid()
      modifies this
      ensures Valid()
      ensures ok <==> old(GetFriendship(userId, friendId)).Some?
      ensures !ok ==> State() == old(State())
      ensures ok ==> var k := old(GetFriendship(userId, friendId)).value.id;
        State() == old(State()).(friendships := old(friendships)[k := old(friendships)[k].(status := status)])
    {
      var found := GetFriendship(userId, friendId);
      if found.None? {
        return false;
      }
      var friendship := found.value.(status := status);
      DenseReplace(friendships, currentFriendshipId, FriendshipId, friendship.id, friendship);
      friendships := friendships[friendship.id := friendship];
      ok := true;
    }

    // ---------------------------------------------------------------- direct messages

    /**
     * `getMessagesBetweenUsers`: every stored message between the two users,
     * in either direction, and nothing else; ordered by time, and messages
     * with the same time in the order they were stored.
     */
    function GetMessagesBetweenUsers(userId1: int, userId2: int): (r: seq<DirectMessage>)
      reads this
      requires Valid()
      ensures forall m :: m in r <==> m.id in messages && messages[m.id] == m && Between(m, (userId1, userId2))
      ensures SortedBy(r, MessageTime)
      ensures forall t :: Increasing(WithKey(r, MessageTime, t), MessageId)
    {
      var between := Filter(Rows(messages, currentMessageId), Between, (userId1, userId2));
      FilterTable(messages, currentMessageId, MessageId, Between, (userId1, userId2));
      SortedInIdOrder(between);
      SortKeepsElements(between, MessageTime);
      SortBy(between, MessageTime)
    }

    /** Sorting ascending ids by time keeps messages of equal time in ascending id order. */
    static lemma SortedInIdOrder(s: seq<DirectMessage>)
      requires Increasing(s, MessageId)
      ensures forall t :: Increasing(WithKey(SortBy(s, MessageTime), MessageTime, t), MessageId)
    {
      forall t ensures Increasing(WithKey(SortBy(s, MessageTime), MessageTime, t), MessageId) {
        SortStable(s, MessageTime, t);
        WithKeyIncreasing(s, MessageTime, t, MessageId);
      }
    }

    /** The conversation of `a` with `b` is the conversation of `b` with `a`. */
    lemma MessagesBetweenSymmetric(a: int, b: int)
      requires Valid()
      ensures GetMessagesBetweenUsers(a, b) == GetMessagesBetweenUsers(b, a)
    {
      FilterAgrees(Rows(messages, currentMessageId), Between, (a, b), (b, a));
    }

    /**
     * `sendMessage`: stores a fresh message and changes nothing else; the
     * conversation between sender and receiver now contains it.
     */
    method SendMessage(senderId: int, receiverId: int, message: string, now: int) returns (m: DirectMessage)
      requires Valid()
      modifies this
      ensures Valid()
      ensures m == DirectMessage(old(currentMessageId), senderId, receiverId, message, now)
      ensures m.id !in old(messages) && forall k :: k in old(messages) ==> k < m.id
      ensures State() == old(State()).(messages := old(messages)[m.id := m], nextMessage := old(currentMessageId) + 1)
      ensures m in GetMessagesBetweenUsers(senderId, receiverId)
    {
      var id := currentMessageId;
      currentMessageId := currentMessageId + 1;
      m := DirectMessage(id, senderId, receiverId, message, now);
      messages := messages[id := m];
      DenseAppend(old(messages), id, MessageId, m);
    }

    // ---------------------------------------------------------------- voice calls

    /** `createVoiceCall`: stores a fresh call in status `calling`, and changes nothing else. */
    method CreateVoiceCall(callerId: int, receiverId: Option<int>, now: int) returns (v: VoiceCall)
      requires Valid()
      modifies this
      ensures Valid()
      ensures v == VoiceCall(old(currentVoiceCallId), callerId, receiverId, "calling", now)
      ensures v.id !in old(voiceCalls) && forall k :: k in old(voiceCalls) ==> k < v.id
      ensures State() == old(State()).(voiceCalls := old(voiceCalls)[v.id := v], nextVoiceCall := old(currentVoiceCallId) + 1)
    {
      var id := currentVoiceCallId;
      currentVoiceCallId := currentVoiceCallId + 1;
      v := VoiceCall(id, callerId, receiverId, "calling", now);
      voiceCalls := voiceCalls[id := v];
      DenseAppend(old(voiceCalls), id, VoiceCallId, v);
    }

    /**
     * `updateVoiceCallStatus`: an unknown id answers false and changes
     * nothing; otherwise only that call's status changes.
     */
    method UpdateVoiceCallStatus(callId: int, status: string) returns (ok: bool)
      requires Valid()
      modifies this
      ensures Valid()
      ensures ok <==> callId in old(voiceCalls)
      ensures !ok ==> State() == old(State())
      ensures ok ==> State() == old(State()).(voiceCalls := old(voiceCalls)[callId := old(voiceCalls)[callId].(status := status)])
    {
      if callId !in voiceCalls {
        return false;
      }
      DenseReplace(voiceCalls, currentVoiceCallId, VoiceCallId, callId, voiceCalls[callId].(status := status));
      voiceCalls := voiceCalls[callId := voiceCalls[callId].(status := status)];
      ok := true;
    }

    /**
     * `getActiveVoiceCall`: the call of smallest id in which `u` is caller or
     * receiver and whose status is `calling` or `active`.
     */
    function GetActiveVoiceCall(u: int): (r: Option<VoiceCall>)
      reads this
      requires Valid()
      ensures r.None? <==> forall k :: k in voiceCalls ==> !LiveCallOf(voiceCalls[k], u)
      ensures r.Some? ==> r.value.id in voiceCalls && voiceCalls[r.value.id] == r.value
      ensures r.Some? ==> (r.value.callerId == u || r.value.receiverId == Some(u))
      ensures r.Some? ==> r.value.status == "calling" || r.value.status == "active"
      ensures r.Some? ==> forall k :: k in voiceCalls && k < r.value.id ==> !LiveCallOf(voiceCalls[k], u)
    {
      FirstInTable(voiceCalls, currentVoiceCallId, VoiceCallId, LiveCallOf, u);
      FirstMatch(Rows(voiceCalls, currentVoiceCallId), LiveCallOf, u)
    }

    // ---------------------------------------------------------------- groups

    /** `createGroup`: stores a fresh group owned by `ownerId`, and changes nothing else. */
    method CreateGroup(name: string, ownerId: int, now: int) returns (g: Group)
      requires Valid()
      modifies this
      ensures Valid()
      ensures g == Group(old(currentGroupId), name, ownerId, now)
      ensures g.id !in old(groups) && forall k :: k in old(groups) ==> k < g.id
      ensures State() == old(State()).(groups := old(groups)[g.id := g], nextGroup := old(currentGroupId) + 1)
    {
      var id := currentGroupId;
      currentGroupId := currentGroupId + 1;
      g := Group(id, name, ownerId, now);
      groups := groups[id := g];
      DenseAppend(old(groups), id, GroupId, g);
    }

    /**
     * `addUserToGroup`: stores a fresh membership, whether or not the group or
     * the user exists and whether or not the user is a member already.
     */
    method AddUserToGroup(groupId: int, userId: int, now: int) returns (gm: GroupMember)
      requires Valid()
      modifies this
      ensures Valid()
      ensures gm == GroupMember(old(currentGroupMemberId), groupId, userId, now)
      ensures gm.id !in old(groupMembers) && forall k :: k in old(groupMembers) ==> k < gm.id
      ensures State() == old(State()).(groupMembers := old(groupMembers)[gm.id := gm], nextGroupMember := old(currentGroupMemberId) + 1)
    {
      var id := currentGroupMemberId;
      currentGroupMemberId := currentGroupMemberId + 1;
      gm := GroupMember(id, groupId, userId, now);
      groupMembers := groupMembers[id := gm];
      DenseAppend(old(groupMembers), id, GroupMemberId, gm);
    }

    /**
     * `getGroupsForUser`: the stored groups that some membership of `u` names,
     * each once, in group id order.
     */
    function GetGroupsForUser(u: int): (r: seq<Group>)
      reads this
      requires Valid()
      ensures forall g :: g in r <==>
        && g.id in groups && groups[g.id] == g
        && exists k :: k in groupMembers && groupMembers[k].userId == u && groupMembers[k].groupId == g.id
      ensures Increasing(r, GroupId)
    {
      var groupIds := GroupIdsOf(Filter(Rows(groupMembers, currentGroupMemberId), MemberIsUser, u));
      GroupsOfUser(groups, currentGroupId, groupMembers, currentGroupMemberId, u);
      Filter(Rows(groups, currentGroupId), GroupListed, groupIds)
    }

    /**
     * `getGroupMembers`: the stored users that some membership of group `g`
     * names, each once even when added twice, in user id order.
     */
    function GetGroupMembers(g: int): (r: seq<User>)
      reads this
      requires Valid()
      ensures forall x :: x in r <==>
        && x.id in users && users[x.id] == x
        && exists k :: k in groupMembers && groupMembers[k].groupId == g && groupMembers[k].userId == x.id
      ensures Increasing(r, UserId)
    {
      var userIds := UserIdsOf(Filter(Rows(groupMembers, currentGroupMemberId), MemberOfGroup, g));
      MembersOfGroup(users, currentUserId, groupMembers, currentGroupMemberId, g);
      Filter(Rows(users, currentUserId), UserListed, userIds)
    }

    /** `sendGroupMessage`: stores a fresh group message, and changes nothing else. */
    method SendGroupMessage(groupId: int, senderId: int, message: string, now: int) returns (m: GroupMessage)
      requires Valid()
      modifies this
      ensures Valid()
      ensures m == GroupMessage(old(currentGroupMessageId), groupId, senderId, message, now)
      ensures m.id !in old(groupMessages) && forall k :: k in old(groupMessages) ==> k < m.id
      ensures State() == old(State()).(groupMessages := old(groupMessages)[m.id := m], nextGroupMessage := old(currentGroupMessageId) + 1)
      ensures m in GetGroupMessages(groupId)
    {
      var id := currentGroupMessageId;
      currentGroupMessageId := currentGroupMessageId + 1;
      m := GroupMessage(id, groupId, senderId, message, now);
      groupMessages := groupMessages[id := m];
      DenseAppend(old(groupMessages), id, GroupMessageId, m);
    }

    /**
     * `getGroupMessages`: every stored message of group `g` and nothing else,
     * ordered by time, messages with the same time in the order they were stored.
     */
    function GetGroupMessages(g: int): (r: seq<GroupMessage>)
      reads this
      requires Valid()
      ensures forall m :: m in r <==> m.id in groupMessages && groupMessages[m.id] == m && m.groupId == g
      ensures SortedBy(r, GroupMessageTime)
      ensures forall t :: Increasing(WithKey(r, GroupMessageTime, t), GroupMessageId)
    {
      var posted := Filter(Rows(groupMessages, currentGroupMessageId), PostedIn, g);
      FilterTable(groupMessages, currentGroupMessageId, GroupMessageId, PostedIn, g);
      GroupSortedInIdOrder(posted);
      SortKeepsElements(posted, GroupMessageTime);
      SortBy(posted, GroupMessageTime)
    }

    /** Sorting ascending ids by time keeps group messages of equal time in ascending id order. */
    static lemma GroupSortedInIdOrder(s: seq<GroupMessage>)
      requires Increasing(s, GroupMessageId)
      ensures forall t :: Increasing(WithKey(SortBy(s, GroupMessageTime), GroupMessageTime, t), GroupMessageId)
    {
      forall t ensures Increasing(WithKey(SortBy(s, GroupMessageTime), GroupMessageTime, t), GroupMessageId) {
        SortStable(s, GroupMessageTime, t);
        WithKeyIncreasing(s, GroupMessageTime, t, GroupMessageId);
      }
    }
  }
}
