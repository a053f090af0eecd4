/** The `UserConnection` record the client sends to `JoinChat`, and the
    `UserInfo` projection the hub hands out. */
module Models {

  /** The role value that grants moderation rights. Roles are free strings. */
  const AdminRole: string := "Admin"

  /** The role a connection carries when the client supplies none. */
  const MemberRole: string := "Member"

  /** A positional record: `UserName` and `ChatRoom` are fixed at construction and only
      `Role` can be replaced. Equality is value equality over all three fields. */
  datatype UserConnection = UserConnection(UserName: string, ChatRoom: string, Role: string := MemberRole)
  {
    /** The copy `this with { Role = role }`; the receiver itself is a value and is unchanged. */
    function WithRole(role: string): (c: UserConnection)
      ensures c.UserName == UserName && c.ChatRoom == ChatRoom
      ensures c.Role == role
    {
      this.(Role := role)
    }
  }

  /** The public projection of a connection: name, role and room, without the connection id. */
  datatype UserInfo = UserInfo(UserName: string, Role: string, ChatRoom: string)

  function Info(u: UserConnection): (i: UserInfo)
    ensures i.UserName == u.UserName && i.Role == u.Role && i.ChatRoom == u.ChatRoom
  {
    UserInfo(u.UserName, u.Role, u.ChatRoom)
  }

  /** A record built without a role has role "Member". */
  lemma DefaultRole(name: string, room: string)
    ensures UserConnection(name, room).Role == MemberRole
    ensures UserConnection(name, room) == UserConnection(name, room, "Member")
  {
  }

  /** Record value semantics: equal exactly when all three components are equal. */
  lemma RecordEquality(a: UserConnection, b: UserConnection)
    ensures a == b <==> (a.UserName == b.UserName && a.ChatRoom == b.ChatRoom && a.Role == b.Role)
  {
  }

  /** A `with` copy is the original exactly when the role was already the one requested,
      and a second copy overrides the first. */
  lemma WithRoleCopy(c: UserConnection, r: string, r': string)
    ensures c.WithRole(r) == c <==> c.Role == r
    ensures c.WithRole(r).WithRole(r') == c.WithRole(r')
    ensures Info(c.WithRole(r)) == UserInfo(c.UserName, r, c.ChatRoom)
  {
  }
}
