# ChatHub model

A Dafny model of the server side of a SignalR chat: the hub `ChatHub` and its record
`UserConnection`. The hub keeps three pieces of state:

- the **registry**, the static `ConnectedUsers` dictionary from connection id to
  `UserConnection`, modelled as a sequence of entries with unique ids (so "the first
  entry with this name" and "the first fifty results" have a fixed meaning);
- the **groups**, SignalR group membership, as a map from room name to a set of
  connection ids;
- the **cache**, the distributed cache holding a serialised copy of each connection's
  record, as a map from connection id to record. Serialisation is the identity.

Every hub method is a pure function from (state, calling connection, arguments) to the new
state and the ordered list of events it sends. An event carries its audience: `Group(room)`,
`Caller`, `Client(id)` or `All`. Its payload is one of the four `IChatClient` calls.

Files:

- `wrappers.dfy`: `Option`.
- `text.dfy`: ordinal case-insensitive equality and substring search.
- `user_connection.dfy`: `UserConnection`, `UserInfo`, and the `with { Role = … }` copy.
- `registry.dfy`: the dictionary operations (lookup, set, remove, first match, snapshot, search filter).
- `chat_hub.dfy`: the hub state, events and the hub methods.
- `hub_properties.dfy`: the join role rule, the moderation rules, idempotence and routing.
- `consistency.dfy`: where the registry, the cache and the groups agree and where they drift apart.
- `scenarios.dfy`: a worked session on concrete values.

## Behaviour worth knowing

The hub's code does the following, and the model does the same:

- `OnDisconnectedAsync` removes the cache entry and the group membership. It never removes
  the registry entry. A disconnected user therefore stays in `GetAllUsers`, in search results
  and in the list broadcast with the departure notice. The registry never shrinks on a disconnect.
- `RemoveUser` never deletes the target's cache entry. A removed connection that is still
  open can go on sending messages to its old room.
- `JoinChat` keeps whatever `Role` the client sent when neither the empty-registry rule nor
  the "Admin" name rule applies. A client can send role "Admin" and get it.
- `JoinChat` does not refuse a connection that has already joined. A second join replaces the
  registry and cache records, but the connection stays in its first room's group.
- `MakeAdmin` has no self-check, and an Admin may name itself. The entry promoted is the first
  entry with that name, which need not be the caller's own. Names are not unique.

## Model

| member | source | states |
|---|---|---|
| `Models.DefaultRole` | backend/Chat/Chat/Models/UserConnection.cs:3 | a record built without a role has role "Member" |
| `Models.RecordEquality` | backend/Chat/Chat/Models/UserConnection.cs:3 | two records are equal exactly when name, room and role are all equal |
| `Models.UserConnection.WithRole` | backend/Chat/Chat/Models/UserConnection.cs:3-5 | the `with { Role = r }` copy keeps name and room and has role `r`; only the role can change |
| `Models.WithRoleCopy` | backend/Chat/Chat/Models/UserConnection.cs:3-5 | a copy equals the original iff the role was already `r`; a later copy overrides an earlier one |
| `Text.Fold` | backend/Chat/Chat/Hubs/ChatHub.cs:30 | ASCII lower-case letters fold to their upper-case letter and every other character is its own fold; a fold is never a lower-case letter |
| `Text.EqualsIgnoreCase` | backend/Chat/Chat/Hubs/ChatHub.cs:30 | equal strings are equal ignoring case, and strings equal ignoring case have the same length |
| `Text.ContainsIgnoreCase` | backend/Chat/Chat/Hubs/ChatHub.cs:92 | a term longer than the name is never contained |
| `Text.EmptyContained` | backend/Chat/Chat/Hubs/ChatHub.cs:92 | every name contains the empty search term |
| `Text.ContainsSelfAnyCase` | backend/Chat/Chat/Hubs/ChatHub.cs:92 | a name contains any term equal to it ignoring case |
| `Registry.Lookup` | backend/Chat/Chat/Hubs/ChatHub.cs:102 | `TryGetValue` finds a record iff the id is a key, and it is that key's record |
| `Registry.Put` | backend/Chat/Chat/Hubs/ChatHub.cs:35 | setting a key keeps keys unique, maps the key to the new record, leaves every other key's record alone, replaces in place or appends |
| `Registry.Remove` | backend/Chat/Chat/Hubs/ChatHub.cs:120 | removing a key keeps keys unique and drops that key. Every other key keeps its record, and the survivors keep their order: the key's entry is spliced out. An absent key leaves the registry as it was |
| `Registry.First` | backend/Chat/Chat/Hubs/ChatHub.cs:117 | `FirstOrDefault` returns the lowest index satisfying the predicate, or none iff no entry does |
| `Registry.Snapshot` | backend/Chat/Chat/Hubs/ChatHub.cs:85-87 | one `UserInfo` per entry, in registry order, with that entry's name, role and room |
| `Registry.Matching` | backend/Chat/Chat/Hubs/ChatHub.cs:91-92 | the `Where` filter returns only registry entries whose name contains the term ignoring case |
| `Registry.MatchingStep` | backend/Chat/Chat/Hubs/ChatHub.cs:91-92 | one more registry entry adds itself to the matches exactly when its name contains the term |
| `Registry.MatchingNames` | backend/Chat/Chat/Hubs/ChatHub.cs:92 | every match's name contains the term ignoring case |
| `Registry.MatchingComplete` | backend/Chat/Chat/Hubs/ChatHub.cs:91-92 | every registry entry whose name contains the term is among the matches |
| `Registry.MatchingPrefix` | backend/Chat/Chat/Hubs/ChatHub.cs:91-94 | the matches of a registry prefix are a prefix of all matches, so stopping early keeps registry order |
| `Registry.MatchingEmptyTerm` | backend/Chat/Chat/Hubs/ChatHub.cs:92 | the empty term matches every entry |
| `ChatHub.AddToGroup` | backend/Chat/Chat/Hubs/ChatHub.cs:37 | the room gains exactly that connection; no other room changes |
| `ChatHub.RemoveFromGroup` | backend/Chat/Chat/Hubs/ChatHub.cs:122 | the room loses exactly that connection; no other room changes |
| `ChatHub.FindByName` | backend/Chat/Chat/Hubs/ChatHub.cs:147-148 | the target resolves to the first entry with exactly that name, and to nothing iff no entry has it |
| `ChatHub.GetAllUsers` | backend/Chat/Chat/Hubs/ChatHub.cs:83-88 | exactly one `UserInfo` per registry entry with the same name, role and room; the length equals the registry size |
| `ChatHub.UpdateAllUsersList` | backend/Chat/Chat/Hubs/ChatHub.cs:133-140 | the directory goes to all clients and lists every registry entry, in order |
| `ChatHub.JoinRole` | backend/Chat/Chat/Hubs/ChatHub.cs:30-33 | the role is Admin iff the registry is empty, the name is "Admin" in any case, or the client sent Admin; any other role is the one the client sent |
| `ChatHub.JoinChat` | backend/Chat/Chat/Hubs/ChatHub.cs:26-47 | the registry is the old one with the caller's record set in place or appended, and the cache holds the same record. The room group gains exactly the caller. The role follows the join rule. Other connections' records are unchanged. The room notice from "Admin" comes first, then the directory of the new state to all |
| `ChatHub.SendMessage` | backend/Chat/Chat/Hubs/ChatHub.cs:49-61 | state unchanged; one `ReceiveMessage` to the cached room under the cached name, and no event iff the cache has no record |
| `ChatHub.OnDisconnected` | backend/Chat/Chat/Hubs/ChatHub.cs:62-81 | removes the cache entry and the cached room's membership, keeps the registry, sends a departure notice then the directory; a cache miss changes nothing |
| `ChatHub.SearchUsers` | backend/Chat/Chat/Hubs/ChatHub.cs:89-98 | at most 50 results, each containing the term ignoring case; exactly the first min(50, k) matches in registry order; the empty term lists the directory's first entries |
| `ChatHub.ScanMatches` | backend/Chat/Chat/Hubs/ChatHub.cs:91-95 | the lazy scan stops after 50 matches or at the end, holding exactly the matches of what it read |
| `ChatHub.ScanCoversSearch` | backend/Chat/Chat/Hubs/ChatHub.cs:94 | what the early-stopping scan holds is the first min(50, k) matches of the whole registry |
| `ChatHub.EmptyTermListsEveryone` | backend/Chat/Chat/Hubs/ChatHub.cs:92-94 | with the empty term the results are a prefix of `GetAllUsers` |
| `ChatHub.RemoveUser` | backend/Chat/Chat/Hubs/ChatHub.cs:100-131 | never touches the cache, never removes the caller's own entry, never adds registry entries |
| `ChatHub.MakeAdmin` | backend/Chat/Chat/Hubs/ChatHub.cs:141-162 | groups unchanged; the same ids stay registered; no event iff the caller is not a registered Admin or the target does not resolve, and then no state change |
| `HubProperties.JoinRoleRule` | backend/Chat/Chat/Hubs/ChatHub.cs:28-33 | stored role is Admin iff the registry was empty, the name is "Admin" in any case, or the client sent Admin; otherwise it is the role the client sent |
| `HubProperties.DefaultJoinIsMember` | backend/Chat/Chat/Hubs/ChatHub.cs:28-35 | a role-less record with an ordinary name joins a non-empty hub as "Member" |
| `HubProperties.JoinRegistrySize` | backend/Chat/Chat/Hubs/ChatHub.cs:35 | a new connection's join adds one entry; a repeated join adds none |
| `HubProperties.JoinThenSend` | backend/Chat/Chat/Hubs/ChatHub.cs:35-59 | after joining, the caller's messages go to the joined room under the joined name |
| `HubProperties.RemoveUserUnregistered` | backend/Chat/Chat/Hubs/ChatHub.cs:102-103 | an unregistered caller changes nothing and gets no event |
| `HubProperties.RemoveUserNotAdmin` | backend/Chat/Chat/Hubs/ChatHub.cs:105-109 | a non-Admin caller changes nothing and gets one system message |
| `HubProperties.RemoveUserSelf` | backend/Chat/Chat/Hubs/ChatHub.cs:111-115 | an Admin naming itself changes nothing and gets one system message |
| `HubProperties.RemoveUserUnknownTarget` | backend/Chat/Chat/Hubs/ChatHub.cs:117-118 | a name nobody has changes nothing, and an Admin caller gets no event |
| `HubProperties.RemoveUserSucceeds` | backend/Chat/Chat/Hubs/ChatHub.cs:117-130 | exactly the first entry with the name is spliced out of the registry, the rest in order, and leaves its room group. It is never the caller. The cache and all other entries stay. Events: room notice, then `UserRemoved` to that connection only, then the directory to all |
| `HubProperties.RemoveUserKeepsCaller` | backend/Chat/Chat/Hubs/ChatHub.cs:111-120 | a registered caller is still registered after any `RemoveUser` it makes |
| `HubProperties.RemovedUserStillRoutes` | backend/Chat/Chat/Hubs/ChatHub.cs:117-130 | a removed connection with a cache record still has its messages delivered to its old room |
| `HubProperties.MakeAdminSilentNoOp` | backend/Chat/Chat/Hubs/ChatHub.cs:143-148 | without a registered Admin caller and a resolving target: no state change and no event |
| `HubProperties.MakeAdminSucceeds` | backend/Chat/Chat/Hubs/ChatHub.cs:147-161 | the first entry with the name becomes Admin in place with name and room unchanged. The cache holds the updated record and gains no other key. All other entries stay. Events: `UserRoleUpdated` to all, the directory to all, then the room notice |
| `HubProperties.MakeAdminIdempotent` | backend/Chat/Chat/Hubs/ChatHub.cs:141-162 | promoting the same name twice yields the same state as once |
| `HubProperties.PromotionOfAdminIsStable` | backend/Chat/Chat/Hubs/ChatHub.cs:150-154 | promoting an entry that is already Admin and mirrored in the cache leaves the state unchanged |
| `HubProperties.PromotedCanRemove` | backend/Chat/Chat/Hubs/ChatHub.cs:150-151 | a freshly promoted connection can remove any other resolving name |
| `HubProperties.PromotionKeepsNames` | backend/Chat/Chat/Hubs/ChatHub.cs:150-151 | after a promotion the target is a registered Admin and no entry's name changes |
| `HubProperties.AdminRemovesResolvable` | backend/Chat/Chat/Hubs/ChatHub.cs:105-130 | a registered Admin naming another registered name takes the success path: three events, the second a `UserRemoved` |
| `HubProperties.DisconnectIdempotent` | backend/Chat/Chat/Hubs/ChatHub.cs:64-80 | a second disconnect of the same connection changes nothing and sends nothing |
| `HubProperties.DisconnectedStillListed` | backend/Chat/Chat/Hubs/ChatHub.cs:64-80 | a disconnect leaves the directory unchanged; the directory sent with the departure notice still lists the leaver |
| `HubProperties.DisconnectThenSendDropped` | backend/Chat/Chat/Hubs/ChatHub.cs:51-69 | after a disconnect the connection's messages are dropped |
| `Consistency.JoinKeepsCacheAgreement` | backend/Chat/Chat/Hubs/ChatHub.cs:35-40 | if every cached record is the registry's record, that still holds after a join |
| `Consistency.JoinKeepsGroupsAgreement` | backend/Chat/Chat/Hubs/ChatHub.cs:35-40 | a first join keeps every group member's cached room equal to its group |
| `Consistency.RejoinLeavesStaleGroup` | backend/Chat/Chat/Hubs/ChatHub.cs:35-37 | a second join to another room leaves the connection in its first room's group |
| `Consistency.DisconnectKeepsAgreement` | backend/Chat/Chat/Hubs/ChatHub.cs:64-70 | a disconnect keeps cache-registry agreement and group-cache agreement |
| `Consistency.RemoveUserKeepsGroupsAgreement` | backend/Chat/Chat/Hubs/ChatHub.cs:120-122 | a removal keeps every group member's cached room equal to its group |
| `Consistency.RemoveUserBreaksCacheAgreement` | backend/Chat/Chat/Hubs/ChatHub.cs:117-130 | a successful removal of a cached connection leaves a cache record with no registry entry |
| `Consistency.MakeAdminKeepsAgreement` | backend/Chat/Chat/Hubs/ChatHub.cs:150-154 | a promotion keeps cache-registry and group-cache agreement |
| `Consistency.PromotionKeepsCacheAgreement` | backend/Chat/Chat/Hubs/ChatHub.cs:150-154 | a successful promotion keeps every cached record equal to its registry record |
| `Consistency.PromotionKeepsGroupsAgreement` | backend/Chat/Chat/Hubs/ChatHub.cs:150-154 | a successful promotion keeps every group member's cached room equal to its group |
| `Scenarios.FirstJoin` | backend/Chat/Chat/Hubs/ChatHub.cs:30-35 | the first connection into an empty hub is stored as Admin |
| `Scenarios.SecondJoin` | backend/Chat/Chat/Hubs/ChatHub.cs:28-46 | the second, ordinary join is a Member and the directory lists two users |
| `Scenarios.PromoteThenRemove` | backend/Chat/Chat/Hubs/ChatHub.cs:100-162 | after promotion the new Admin removes the first one. There are three events, and only the second, addressed to the removed connection, is a `UserRemoved`. One entry is left |
| `Scenarios.SendWithoutCacheRecord` | backend/Chat/Chat/Hubs/ChatHub.cs:49-61 | a message from a connection with no cache record reaches nobody and produces no event |
| `Scenarios.AdminNameAnyCase` | backend/Chat/Chat/Hubs/ChatHub.cs:30 | the name "aDmIn" joins as Admin whatever the registry holds |

## Left out

- SignalR transport: connection handshake, delivery and `Hub<IChatClient>` plumbing. Events are recorded with their audience and never delivered. Who belongs to `All` is the transport's business.
- The distributed cache and `System.Text.Json`: the cache is a map and serialisation is the identity. On a cache miss, `SendMessage` and `OnDisconnectedAsync` in .NET throw while deserialising. The model records no state change and no event, and does not model the error returned to the calling client.
- `base.OnDisconnectedAsync` and the `exception` argument: they do not touch the hub's state.
- SignalR's own clean-up of a closed connection: after `OnDisconnectedAsync` the transport drops the connection from every group. The model changes groups only through the hub's `AddToGroupAsync`/`RemoveFromGroupAsync` calls, so a re-joined connection that disconnects stays in its first room's group. No hub method reads group membership, so no event differs.
- Async execution and concurrency: each hub call is atomic and sequential. The static, non-thread-safe `Dictionary` and any interleaving of `await`s are not modelled.
- Full Unicode case folding: `OrdinalIgnoreCase` is modelled with an ASCII-only fold of `a`..`z`.
- Dictionary enumeration order after removals: .NET reuses freed slots, so later additions can be listed before older entries. The model appends new keys at the end. "First" and "first fifty" refer to the model's order.
- Null records and null strings sent by a client are not modelled.
- `UserInfo` is declared outside the hub and the record file. It is modelled from its constructor calls as (name, role, room).
- `backend/Chat/Chat/Program.cs` (dependency injection, CORS, routing) and the React front end are outside the hub.
