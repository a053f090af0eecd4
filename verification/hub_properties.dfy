/** Properties of the hub transitions: the join-time role rule, the moderation rules of
    `RemoveUser` and `MakeAdmin`, idempotence, and cache-driven routing. */
module HubProperties {
  import opened Wrappers
  import opened Models
  import opened Text
  import opened Registry
  import opened ChatHub

  /** The role a connection holds in the registry, if it is registered. */
  function RoleOf(st: HubState, id: ConnectionId): (role: Option<string>) {
    match Lookup(st.registry, id)
    case Some(u) => Some(u.Role)
    case None => None
  }

  /** `k` is the index of the first registry entry named `name`, stated without `FindByName`. */
  ghost predicate FirstNamed(r: seq<Entry>, name: string, k: nat) {
    k < |r| && r[k].user.UserName == name && forall j :: 0 <= j < k ==> r[j].user.UserName != name
  }

  /** The caller is registered with role Admin. */
  ghost predicate IsAdmin(st: HubState, id: ConnectionId) {
    RoleOf(st, id) == Some(AdminRole)
  }

  /** Helper: lets the lemmas below name the resolved target by its index. */
  lemma FindByNameIsFirstNamed(r: seq<Entry>, name: string, k: nat)
    requires FirstNamed(r, name, k)
    ensures FindByName(r, name) == Some(k)
  {
  }

  // ---------------------------------------------------------------- JoinChat

  /** The stored role is Admin exactly when the registry was empty, the name is "Admin" in
      any case, or the client itself asked for Admin; otherwise it is the role the client sent. */
  lemma JoinRoleRule(st: HubState, caller: ConnectionId, c: UserConnection)
    requires Valid(st)
    ensures RoleOf(JoinChat(st, caller, c).state, caller) == Some(AdminRole)
            <==> (|st.registry| == 0 || EqualsIgnoreCase(c.UserName, AdminName) || c.Role == AdminRole)
    ensures |st.registry| > 0 && !EqualsIgnoreCase(c.UserName, AdminName)
            ==> RoleOf(JoinChat(st, caller, c).state, caller) == Some(c.Role)
  {
  }

  /** A record sent without a role joins a non-empty hub as a Member, unless its name is "Admin". */
  lemma DefaultJoinIsMember(st: HubState, caller: ConnectionId, name: string, room: string)
    requires Valid(st) && |st.registry| > 0 && !EqualsIgnoreCase(name, AdminName)
    ensures RoleOf(JoinChat(st, caller, UserConnection(name, room)).state, caller) == Some(MemberRole)
  {
  }

  /** A join of a new connection adds exactly one entry; a repeated join replaces its own. */
  lemma JoinRegistrySize(st: HubState, caller: ConnectionId, c: UserConnection)
    requires Valid(st)
    ensures |JoinChat(st, caller, c).state.registry| == |st.registry| + (if HasId(st.registry, caller) then 0 else 1)
  {
  }

  /** After joining, the caller's messages go to the room it joined, under the name it chose. */
  lemma JoinThenSend(st: HubState, caller: ConnectionId, c: UserConnection, message: string)
    requires Valid(st)
    ensures SendMessage(JoinChat(st, caller, c).state, caller, message).events
            == [Event(Group(c.ChatRoom), ReceiveMessage(c.UserName, message))]
  {
  }

  // ---------------------------------------------------------------- RemoveUser

  /** An unregistered caller gets nothing and changes nothing. */
  lemma RemoveUserUnregistered(st: HubState, caller: ConnectionId, target: string)
    requires Valid(st) && !HasId(st.registry, caller)
    ensures RemoveUser(st, caller, target) == Outcome(st, [])
  {
  }

  /** A caller without the Admin role is told so, and nothing changes. */
  lemma RemoveUserNotAdmin(st: HubState, caller: ConnectionId, target: string)
    requires Valid(st) && HasId(st.registry, caller) && !IsAdmin(st, caller)
    ensures RemoveUser(st, caller, target)
            == Outcome(st, [Event(Caller, ReceiveMessage(SystemSender, NoRightsToRemove))])
  {
  }

  /** An Admin naming itself is told it cannot remove itself, and nothing changes. */
  lemma RemoveUserSelf(st: HubState, caller: ConnectionId)
    requires Valid(st) && IsAdmin(st, caller)
    ensures RemoveUser(st, caller, Lookup(st.registry, caller).value.UserName)
            == Outcome(st, [Event(Caller, ReceiveMessage(SystemSender, CannotRemoveSelf))])
  {
  }

  /** A name nobody has changes nothing, and an Admin asking for it gets no feedback. */
  lemma RemoveUserUnknownTarget(st: HubState, caller: ConnectionId, target: string)
    requires Valid(st)
    requires forall j :: 0 <= j < |st.registry| ==> st.registry[j].user.UserName != target
    ensures RemoveUser(st, caller, target).state == st
    ensures IsAdmin(st, caller) ==> RemoveUser(st, caller, target).events == []
  {
    if IsAdmin(st, caller) {
      var i :| 0 <= i < |st.registry| && st.registry[i].id == caller;
      assert st.registry[i].user.UserName != target;
    }
  }

  /** An authorised removal takes out exactly the first entry with the target name: it leaves
      the registry and its room group, every other entry and the whole cache stay, and the
      room notice, the target's own `UserRemoved` and the new directory follow in that order. */
  lemma RemoveUserSucceeds(st: HubState, caller: ConnectionId, target: string, k: nat)
    requires Valid(st) && IsAdmin(st, caller)
    requires target != Lookup(st.registry, caller).value.UserName
    requires FirstNamed(st.registry, target, k)
    ensures var e := st.registry[k]; var o := RemoveUser(st, caller, target);
      && e.id != caller
      && !HasId(o.state.registry, e.id)
      && |o.state.registry| == |st.registry| - 1
      && o.state.registry == st.registry[..k] + st.registry[k + 1..]
      && (forall x :: x != e.id ==> Lookup(o.state.registry, x) == Lookup(st.registry, x))
      && o.state.cache == st.cache
      && Members(o.state.groups, e.user.ChatRoom) == Members(st.groups, e.user.ChatRoom) - {e.id}
      && (forall room :: room != e.user.ChatRoom ==> Members(o.state.groups, room) == Members(st.groups, room))
      && o.events == [Event(Group(e.user.ChatRoom), ReceiveMessage(SystemSender, RemovedNotice(target))),
                      Event(Client(e.id), UserRemoved(RemovedReason)),
                      UpdateAllUsersList(o.state)]
  {
    FindByNameIsFirstNamed(st.registry, target, k);
  }

  /** A removal that succeeded never touched the caller's own entry. */
  lemma RemoveUserKeepsCaller(st: HubState, caller: ConnectionId, target: string)
    requires Valid(st) && HasId(st.registry, caller)
    ensures HasId(RemoveUser(st, caller, target).state.registry, caller)
  {
  }

  /** A connection removed while still connected keeps its cache entry, so its messages
      are still delivered to its old room. */
  lemma RemovedUserStillRoutes(st: HubState, caller: ConnectionId, target: string, k: nat, message: string)
    requires Valid(st) && IsAdmin(st, caller)
    requires target != Lookup(st.registry, caller).value.UserName
    requires FirstNamed(st.registry, target, k) && st.registry[k].id in st.cache
    ensures var id := st.registry[k].id;
      && !HasId(RemoveUser(st, caller, target).state.registry, id)
      && SendMessage(RemoveUser(st, caller, target).state, id, message).events
         == [Event(Group(st.cache[id].ChatRoom), ReceiveMessage(st.cache[id].UserName, message))]
  {
    RemoveUserSucceeds(st, caller, target, k);
  }

  // ---------------------------------------------------------------- MakeAdmin

  /** Without a registered Admin caller and a target that resolves, `MakeAdmin` does nothing
      and says nothing. */
  lemma MakeAdminSilentNoOp(st: HubState, caller: ConnectionId, target: string)
    requires Valid(st)
    requires !IsAdmin(st, caller) || forall j :: 0 <= j < |st.registry| ==> st.registry[j].user.UserName != target
    ensures MakeAdmin(st, caller, target) == Outcome(st, [])
  {
  }

  /** A promotion sets the first entry with the target name to Admin, in place, keeping its
      name and room, mirrors it into the cache, leaves every other entry alone, and announces
      it to everyone before telling the room. */
  lemma MakeAdminSucceeds(st: HubState, caller: ConnectionId, target: string, k: nat)
    requires Valid(st) && IsAdmin(st, caller)
    requires FirstNamed(st.registry, target, k)
    ensures var e := st.registry[k]; var o := MakeAdmin(st, caller, target);
      var promoted := UserConnection(e.user.UserName, e.user.ChatRoom, AdminRole);
      && |o.state.registry| == |st.registry|
      && o.state.registry[k] == Entry(e.id, promoted)
      && (forall j :: 0 <= j < |st.registry| && j != k ==> o.state.registry[j] == st.registry[j])
      && Lookup(o.state.registry, e.id) == Some(promoted)
      && e.id in o.state.cache && o.state.cache[e.id] == promoted
      && o.state.cache.Keys == st.cache.Keys + {e.id}
      && (forall x :: x != e.id ==> Lookup(o.state.registry, x) == Lookup(st.registry, x))
      && (forall x :: x != e.id && x in st.cache ==> x in o.state.cache && o.state.cache[x] == st.cache[x])
      && o.state.groups == st.groups
      && o.events == [Event(All, UserRoleUpdated(target, AdminRole)),
                      UpdateAllUsersList(o.state),
                      Event(Group(e.user.ChatRoom), ReceiveMessage(SystemSender, PromotedNotice(target)))]
  {
    FindByNameIsFirstNamed(st.registry, target, k);
  }

  /** Promoting the same name twice leaves the same state as promoting it once. */
  lemma MakeAdminIdempotent(st: HubState, caller: ConnectionId, target: string)
    requires Valid(st)
    ensures var once := MakeAdmin(st, caller, target).state;
            MakeAdmin(once, caller, target).state == once
  {
    var o := MakeAdmin(st, caller, target);
    if o.events != [] {
      var k := FindByName(st.registry, target).value;
      MakeAdminSucceeds(st, caller, target, k);
      var s1 := o.state;
      var e := st.registry[k];
      assert IsAdmin(s1, caller) by {
        if caller != e.id {
          assert Lookup(s1.registry, caller) == Lookup(st.registry, caller);
        }
      }
      assert FirstNamed(s1.registry, target, k) by {
        forall j | 0 <= j < k
          ensures s1.registry[j].user.UserName != target
        {
          assert s1.registry[j] == st.registry[j];
        }
      }
      PromotionOfAdminIsStable(s1, caller, target, k);
    }
  }

  /** Promoting an entry that is already Admin, with a matching cache record, changes nothing. */
  lemma PromotionOfAdminIsStable(st: HubState, caller: ConnectionId, target: string, k: nat)
    requires Valid(st) && IsAdmin(st, caller) && FirstNamed(st.registry, target, k)
    requires st.registry[k].user.Role == AdminRole
    requires st.registry[k].id in st.cache && st.cache[st.registry[k].id] == st.registry[k].user
    ensures MakeAdmin(st, caller, target).state == st
  {
    MakeAdminSucceeds(st, caller, target, k);
    var s2 := MakeAdmin(st, caller, target).state;
    assert s2.registry == st.registry;
    assert s2.cache == st.cache;
  }

  /** A promoted connection can at once remove any other name that resolves. */
  lemma PromotedCanRemove(st: HubState, caller: ConnectionId, target: string, k: nat, other: string)
    requires Valid(st) && IsAdmin(st, caller)
    requires FirstNamed(st.registry, target, k)
    requires other != target
    requires exists j :: 0 <= j < |st.registry| && st.registry[j].user.UserName == other
    ensures var s1 := MakeAdmin(st, caller, target).state;
            var o := RemoveUser(s1, st.registry[k].id, other);
            |o.events| == 3 && o.events[1].msg == UserRemoved(RemovedReason)
  {
    PromotionKeepsNames(st, caller, target, k);
    var s1 := MakeAdmin(st, caller, target).state;
    var j :| 0 <= j < |st.registry| && st.registry[j].user.UserName == other;
    assert s1.registry[j].user.UserName == other;
    AdminRemovesResolvable(s1, st.registry[k].id, other);
  }

  /** A promotion makes the target an Admin and renames nobody. */
  lemma PromotionKeepsNames(st: HubState, caller: ConnectionId, target: string, k: nat)
    requires Valid(st) && IsAdmin(st, caller)
    requires FirstNamed(st.registry, target, k)
    ensures var s1 := MakeAdmin(st, caller, target).state;
      && Valid(s1) && IsAdmin(s1, st.registry[k].id)
      && Lookup(s1.registry, st.registry[k].id).value.UserName == target
      && |s1.registry| == |st.registry|
      && forall j :: 0 <= j < |st.registry| ==> s1.registry[j].user.UserName == st.registry[j].user.UserName
  {
    MakeAdminSucceeds(st, caller, target, k);
  }

  /** An Admin naming someone else who is registered takes the success path of `RemoveUser`. */
  lemma AdminRemovesResolvable(st: HubState, caller: ConnectionId, other: string)
    requires Valid(st) && IsAdmin(st, caller)
    requires other != Lookup(st.registry, caller).value.UserName
    requires exists j :: 0 <= j < |st.registry| && st.registry[j].user.UserName == other
    ensures var o := RemoveUser(st, caller, other);
            |o.events| == 3 && o.events[1].msg == UserRemoved(RemovedReason)
  {
    var k := FindByName(st.registry, other).value;
    RemoveUserSucceeds(st, caller, other, k);
  }

  // ---------------------------------------------------------------- Disconnect and routing

  /** A second disconnect of the same connection changes nothing and sends nothing. */
  lemma DisconnectIdempotent(st: HubState, caller: ConnectionId)
    ensures var once := OnDisconnected(st, caller).state;
            OnDisconnected(once, caller) == Outcome(once, [])
  {
  }

  /** A disconnected connection stays in the directory, and the directory sent with the
      departure notice still lists it. */
  lemma DisconnectedStillListed(st: HubState, caller: ConnectionId)
    requires caller in st.cache
    ensures GetAllUsers(OnDisconnected(st, caller).state) == GetAllUsers(st)
    ensures OnDisconnected(st, caller).events[1].msg.users == GetAllUsers(st)
    ensures HasId(st.registry, caller) ==> HasId(OnDisconnected(st, caller).state.registry, caller)
  {
  }

  /** After a disconnect, the connection's messages are dropped. */
  lemma DisconnectThenSendDropped(st: HubState, caller: ConnectionId, message: string)
    ensures SendMessage(OnDisconnected(st, caller).state, caller, message).events == []
  {
  }
}
