/** The SignalR hub `ChatHub` as a sequential state machine. Each hub method is a pure
    function from the hub's state, the calling connection and the arguments to the new
    state and the ordered list of client events it sends. */
module ChatHub {
  import opened Wrappers
  import opened Models
  import opened Text
  import opened Registry

  /** SignalR groups: room name to the connection ids subscribed to it. */
  type Groups = map<string, set<ConnectionId>>

  /** The static `ConnectedUsers` registry, the SignalR groups and the distributed cache,
      whose serialised records are modelled by the records themselves. */
  datatype HubState = HubState(registry: seq<Entry>, groups: Groups, cache: map<ConnectionId, UserConnection>)

  /** The registry is a dictionary: its keys are unique. */
  predicate Valid(st: HubState) {
    UniqueIds(st.registry)
  }

  /** Who an event is sent to: `Clients.Group(room)`, `Clients.Caller`, `Clients.Client(id)`, `Clients.All`. */
  datatype Audience = Group(room: string) | Caller | Client(id: ConnectionId) | All

  /** The `IChatClient` calls the hub makes. */
  datatype Message =
    | ReceiveMessage(userName: string, message: string)
    | UsersListUpdated(users: seq<UserInfo>)
    | UserRemoved(reason: string)
    | UserRoleUpdated(userName: string, newRole: string)

  datatype Event = Event(to: Audience, msg: Message)

  datatype Outcome = Outcome(state: HubState, events: seq<Event>)

  /** The user name that always receives the Admin role at join. */
  const AdminName: string := "Admin"

  /** Sender name of join and leave notices. */
  const AdminSender: string := "Admin"

  /** Sender name of moderation notices. */
  const SystemSender: string := "System"

  /** The largest number of results `SearchUsers` returns (`Take(50)`). */
  const MaxSearchResults: nat := 50

  const NoRightsToRemove: string := "Недостаточно прав для удаления пользователей"
  const CannotRemoveSelf: string := "Нельзя удалить себя"
  const RemovedReason: string := "Вас удалили из чата"

  /** The room notices name their subject first. */
  function JoinedNotice(name: string): (notice: string)
    ensures |notice| > |name| && notice[..|name|] == name
  {
    name + " присоединился к чату"
  }

  function LeftNotice(name: string): (notice: string)
    ensures |notice| > |name| && notice[..|name|] == name
  {
    name + " покинул чат"
  }

  function RemovedNotice(name: string): (notice: string)
    ensures |notice| > |name| && notice[..|name|] == name
  {
    name + " был удален из чата"
  }

  function PromotedNotice(name: string): (notice: string)
    ensures |notice| > |name| && notice[..|name|] == name
  {
    name + " теперь администратор"
  }

  /** The members of a room; a room nobody joined has none. */
  function Members(g: Groups, room: string): (ids: set<ConnectionId>)
    ensures room !in g ==> ids == {}
  {
    if room in g then g[room] else {}
  }

  /** `Groups.AddToGroupAsync(id, room)`. */
  function AddToGroup(g: Groups, id: ConnectionId, room: string): (g': Groups)
    ensures Members(g', room) == Members(g, room) + {id}
    ensures forall other :: other != room ==> Members(g', other) == Members(g, other)
  {
    g[room := Members(g, room) + {id}]
  }

  /** `Groups.RemoveFromGroupAsync(id, room)`. */
  function RemoveFromGroup(g: Groups, id: ConnectionId, room: string): (g': Groups)
    ensures Members(g', room) == Members(g, room) - {id}
    ensures forall other :: other != room ==> Members(g', other) == Members(g, other)
  {
    g[room := Members(g, room) - {id}]
  }

  /** `FirstOrDefault(u => u.Value.UserName == name)` over the registry, as an index. */
  function FindByName(r: seq<Entry>, name: string): (k: Option<nat>)
    ensures k.Some? ==> k.value < |r| && r[k.value].user.UserName == name
    ensures k.Some? ==> forall j :: 0 <= j < k.value ==> r[j].user.UserName != name
    ensures k.None? <==> forall j :: 0 <= j < |r| ==> r[j].user.UserName != name
  {
    First(r, (e: Entry) => e.user.UserName == name)
  }

  /** `GetAllUsers`: one `UserInfo` per registry entry, in registry order. */
  function GetAllUsers(st: HubState): (users: seq<UserInfo>)
    ensures |users| == |st.registry|
    ensures forall i :: 0 <= i < |users| ==>
      users[i].UserName == st.registry[i].user.UserName
      && users[i].Role == st.registry[i].user.Role
      && users[i].ChatRoom == st.registry[i].user.ChatRoom
  {
    Snapshot(st.registry)
  }

  /** `UpdateAllUsersList`: the directory of the given state, sent to every client. */
  function UpdateAllUsersList(st: HubState): (e: Event)
    ensures e.to == All && e.msg.UsersListUpdated?
    ensures |e.msg.users| == |st.registry|
    ensures forall i :: 0 <= i < |st.registry| ==> e.msg.users[i] == Info(st.registry[i].user)
  {
    Event(All, UsersListUpdated(GetAllUsers(st)))
  }

  /** The role `JoinChat` stores: "Admin" on an empty registry or for the name "Admin" in
      any case; otherwise whatever role the client sent. */
  function JoinRole(registryEmpty: bool, connection: UserConnection): (role: string)
    ensures role == AdminRole <==>
      (registryEmpty || EqualsIgnoreCase(connection.UserName, AdminName) || connection.Role == AdminRole)
    ensures role != AdminRole ==> role == connection.Role
  {
    if registryEmpty || EqualsIgnoreCase(connection.UserName, AdminName) then AdminRole
    else connection.Role
  }

  /** `JoinChat(connection)` from connection `caller`. */
  function JoinChat(st: HubState, caller: ConnectionId, connection: UserConnection): (o: Outcome)
    requires Valid(st)
    ensures Valid(o.state)
    ensures Lookup(o.state.registry, caller).Some?
    ensures o.state.registry == Put(st.registry, caller, Lookup(o.state.registry, caller).value)
    ensures var u := Lookup(o.state.registry, caller).value;
      && u == connection.WithRole(JoinRole(|st.registry| == 0, connection))
      && caller in o.state.cache && o.state.cache[caller] == u
      && Members(o.state.groups, u.ChatRoom) == Members(st.groups, u.ChatRoom) + {caller}
      && (forall room :: room != u.ChatRoom ==> Members(o.state.groups, room) == Members(st.groups, room))
      && o.events == [Event(Group(u.ChatRoom), ReceiveMessage(AdminSender, JoinedNotice(u.UserName))),
                      UpdateAllUsersList(o.state)]
    ensures forall x :: x != caller ==> Lookup(o.state.registry, x) == Lookup(st.registry, x)
    ensures forall x :: x != caller && x in st.cache ==> x in o.state.cache && o.state.cache[x] == st.cache[x]
    ensures o.state.cache.Keys == st.cache.Keys + {caller}
  {
    var user := if |st.registry| == 0 || EqualsIgnoreCase(connection.UserName, AdminName)
                then connection.WithRole(AdminRole) else connection;
    var st' := HubState(Put(st.registry, caller, user),
                        AddToGroup(st.groups, caller, user.ChatRoom),
                        st.cache[caller := user]);
    Outcome(st', [Event(Group(user.ChatRoom), ReceiveMessage(AdminSender, JoinedNotice(user.UserName))),
                  UpdateAllUsersList(st')])
  }

  /** `SendMessage(message)`: routed through the cache, not the registry. A cache miss
      sends nothing. */
  function SendMessage(st: HubState, caller: ConnectionId, message: string): (o: Outcome)
    ensures o.state == st
    ensures caller !in st.cache <==> o.events == []
    ensures caller in st.cache ==>
      |o.events| == 1 && o.events[0].to == Group(st.cache[caller].ChatRoom)
      && o.events[0].msg == ReceiveMessage(st.cache[caller].UserName, message)
  {
    if caller in st.cache then
      var c := st.cache[caller];
      Outcome(st, [Event(Group(c.ChatRoom), ReceiveMessage(c.UserName, message))])
    else
      Outcome(st, [])
  }

  /** `OnDisconnectedAsync`: drops the cache entry and the group membership of the cached
      room, announces the departure, and leaves the registry as it was. */
  function OnDisconnected(st: HubState, caller: ConnectionId): (o: Outcome)
    ensures o.state.registry == st.registry
    ensures caller !in o.state.cache
    ensures o.state.cache == st.cache - {caller}
    ensures caller !in st.cache ==> o == Outcome(st, [])
    ensures caller in st.cache ==>
      var room := st.cache[caller].ChatRoom;
      && Members(o.state.groups, room) == Members(st.groups, room) - {caller}
      && (forall other :: other != room ==> Members(o.state.groups, other) == Members(st.groups, other))
      && o.events == [Event(Group(room), ReceiveMessage(AdminSender, LeftNotice(st.cache[caller].UserName))),
                      UpdateAllUsersList(st)]
  {
    if caller in st.cache then
      var c := st.cache[caller];
      var st' := HubState(st.registry, RemoveFromGroup(st.groups, caller, c.ChatRoom), st.cache - {caller});
      Outcome(st', [Event(Group(c.ChatRoom), ReceiveMessage(AdminSender, LeftNotice(c.UserName))),
                    UpdateAllUsersList(st')])
    else
      Outcome(st, [])
  }

  /** `SearchUsers(term)`: the first fifty registry entries whose name contains the term
      ignoring case, in registry order. */
  method SearchUsers(st: HubState, term: string) returns (results: seq<UserInfo>)
    ensures |results| <= MaxSearchResults
    ensures |results| == if |Matching(st.registry, term)| < MaxSearchResults
                         then |Matching(st.registry, term)| else MaxSearchResults
    ensures forall i :: 0 <= i < |results| ==> results[i] == Info(Matching(st.registry, term)[i].user)
    ensures forall i :: 0 <= i < |results| ==> ContainsIgnoreCase(results[i].UserName, term)
    ensures term == "" ==> results == GetAllUsers(st)[..|results|]
  {
    var scanned;
    results, scanned := ScanMatches(st.registry, term);
    ScanCoversSearch(st.registry, term, results, scanned);
    if term == "" {
      EmptyTermListsEveryone(st, results);
    }
  }

  /** What the scan collected is the first fifty matches of the whole registry. */
  lemma ScanCoversSearch(r: seq<Entry>, term: string, results: seq<UserInfo>, scanned: nat)
    requires scanned <= |r|
    requires scanned == |r| || |results| == MaxSearchResults
    requires |results| == |Matching(r[..scanned], term)| <= MaxSearchResults
    requires forall j :: 0 <= j < |results| ==> results[j] == Info(Matching(r[..scanned], term)[j].user)
    ensures |results| == if |Matching(r, term)| < MaxSearchResults then |Matching(r, term)| else MaxSearchResults
    ensures forall i :: 0 <= i < |results| ==> results[i] == Info(Matching(r, term)[i].user)
    ensures forall i :: 0 <= i < |results| ==> ContainsIgnoreCase(results[i].UserName, term)
  {
    if scanned == |r| {
      assert r[..scanned] == r;
    } else {
      MatchingPrefix(r, term, scanned);
    }
    MatchingNames(r, term);
  }

  /** With the empty term the search results are a prefix of the full directory. */
  lemma EmptyTermListsEveryone(st: HubState, results: seq<UserInfo>)
    requires |results| <= |Matching(st.registry, "")|
    requires forall i :: 0 <= i < |results| ==> results[i] == Info(Matching(st.registry, "")[i].user)
    ensures results == GetAllUsers(st)[..|results|]
  {
    MatchingEmptyTerm(st.registry);
  }

  /** The lazy `Where(...).Take(50)` enumeration: scans the registry in order and stops as
      soon as fifty matches are collected. Returns the matches and how many entries it read. */
  method ScanMatches(r: seq<Entry>, term: string) returns (results: seq<UserInfo>, scanned: nat)
    ensures scanned <= |r|
    ensures scanned == |r| || |results| == MaxSearchResults
    ensures |results| == |Matching(r[..scanned], term)| <= MaxSearchResults
    ensures forall j :: 0 <= j < |results| ==> results[j] == Info(Matching(r[..scanned], term)[j].user)
  {
    results := [];
    scanned := 0;
    while scanned < |r| && |results| < MaxSearchResults
      invariant scanned <= |r|
      invariant |results| == |Matching(r[..scanned], term)| <= MaxSearchResults
      invariant forall j :: 0 <= j < |results| ==> results[j] == Info(Matching(r[..scanned], term)[j].user)
    {
      MatchingStep(r, term, scanned);
      if NameMatches(r[scanned], term) {
        results := results + [Info(r[scanned].user)];
      }
      scanned := scanned + 1;
    }
  }

  /** `RemoveUser(targetUserName)` from connection `caller`. Denials send the caller a system
      message (or nothing, for an unregistered caller); an unknown target is ignored. On
      success the first entry with that exact name leaves the registry and its room group,
      but its cache entry stays. */
  function RemoveUser(st: HubState, caller: ConnectionId, targetUserName: string): (o: Outcome)
    requires Valid(st)
    ensures Valid(o.state)
    ensures o.state.cache == st.cache
    ensures HasId(st.registry, caller) ==> Lookup(o.state.registry, caller) == Lookup(st.registry, caller)
    ensures forall x :: HasId(o.state.registry, x) ==> HasId(st.registry, x)
  {
    match Lookup(st.registry, caller)
    case None => Outcome(st, [])
    case Some(current) =>
      if current.Role != AdminRole then
        Outcome(st, [Event(Caller, ReceiveMessage(SystemSender, NoRightsToRemove))])
      else if targetUserName == current.UserName then
        Outcome(st, [Event(Caller, ReceiveMessage(SystemSender, CannotRemoveSelf))])
      else
        match FindByName(st.registry, targetUserName)
        case None => Outcome(st, [])
        case Some(k) =>
          var target := st.registry[k];
          var st' := HubState(Remove(st.registry, target.id),
                              RemoveFromGroup(st.groups, target.id, target.user.ChatRoom),
                              st.cache);
          Outcome(st', [Event(Group(target.user.ChatRoom), ReceiveMessage(SystemSender, RemovedNotice(targetUserName))),
                        Event(Client(target.id), UserRemoved(RemovedReason)),
                        UpdateAllUsersList(st')])
  }

  /** `MakeAdmin(targetUserName)` from connection `caller`: silently ignored unless the caller
      is a registered Admin and some entry has that exact name; then the first such entry
      becomes Admin in the registry and in the cache. */
  function MakeAdmin(st: HubState, caller: ConnectionId, targetUserName: string): (o: Outcome)
    requires Valid(st)
    ensures Valid(o.state)
    ensures o.state.groups == st.groups
    ensures forall x :: HasId(o.state.registry, x) <==> HasId(st.registry, x)
    ensures o.events == [] <==>
      (Lookup(st.registry, caller).None? || Lookup(st.registry, caller).value.Role != AdminRole
       || FindByName(st.registry, targetUserName).None?)
    ensures o.events == [] ==> o.state == st
  {
    match Lookup(st.registry, caller)
    case None => Outcome(st, [])
    case Some(current) =>
      if current.Role != AdminRole then Outcome(st, [])
      else
        match FindByName(st.registry, targetUserName)
        case None => Outcome(st, [])
        case Some(k) =>
          var target := st.registry[k];
          var updated := target.user.WithRole(AdminRole);
          var st' := HubState(Put(st.registry, target.id, updated), st.groups, st.cache[target.id := updated]);
          Outcome(st', [Event(All, UserRoleUpdated(targetUserName, AdminRole)),
                        UpdateAllUsersList(st'),
                        Event(Group(updated.ChatRoom), ReceiveMessage(SystemSender, PromotedNotice(targetUserName)))])
  }
}
