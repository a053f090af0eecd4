/** A worked session: a first join, a second join, a promotion, a removal by the promoted
    user, a join under the name "admin", and a message from a connection with no cache record. */
module Scenarios {
  import opened Wrappers
  import opened Models
  import opened Text
  import opened Registry
  import opened ChatHub
  import opened HubProperties

  const Empty := HubState([], map[], map[])
  const Ann := UserConnection("Ann", "lobby")
  const Bob := UserConnection("Bob", "lobby")

  function Step1(): (o: Outcome) { JoinChat(Empty, "a", Ann) }
  function Step2(): (o: Outcome) requires Valid(Step1().state) { JoinChat(Step1().state, "b", Bob) }

  /** The first connection into an empty hub becomes Admin. */
  lemma FirstJoin()
    ensures Valid(Step1().state)
    ensures Step1().state.registry == [Entry("a", Ann.WithRole(AdminRole))]
  {
  }

  /** The second connection, with an ordinary name and no role, is a Member, and the
      directory everyone receives lists both. */
  lemma SecondJoin()
    ensures Valid(Step1().state)
    ensures Step2().state.registry == [Entry("a", Ann.WithRole(AdminRole)), Entry("b", Bob)]
    ensures RoleOf(Step2().state, "b") == Some(MemberRole)
    ensures |Step2().events[1].msg.users| == 2
  {
    FirstJoin();
    assert !EqualsIgnoreCase("Bob", AdminName);
  }

  /** The Admin promotes the Member; everyone is told, and the promoted user then removes
      the first Admin, who alone receives `UserRemoved`. */
  lemma PromoteThenRemove()
    ensures Valid(Step1().state)
    ensures var o3 := MakeAdmin(Step2().state, "a", "Bob");
      && RoleOf(o3.state, "b") == Some(AdminRole)
      && o3.events[0] == Event(All, UserRoleUpdated("Bob", AdminRole))
      && var o4 := RemoveUser(o3.state, "b", "Ann");
      && |o4.events| == 3
      && o4.events[1] == Event(Client("a"), UserRemoved(RemovedReason))
      && !o4.events[0].msg.UserRemoved? && !o4.events[2].msg.UserRemoved?
      && |o4.state.registry| == 1 && !HasId(o4.state.registry, "a")
  {
    SecondJoin();
    MakeAdminSucceeds(Step2().state, "a", "Bob", 1);
    var o3 := MakeAdmin(Step2().state, "a", "Bob");
    assert o3.state.registry[0] == Entry("a", Ann.WithRole(AdminRole));
    RemoveUserSucceeds(o3.state, "b", "Ann", 0);
  }

  /** The name "aDmIn" joins as Admin even though an Admin is already present. */
  lemma AdminNameAnyCase(st: HubState, caller: ConnectionId, room: string)
    requires Valid(st)
    ensures RoleOf(JoinChat(st, caller, UserConnection("aDmIn", room)).state, caller) == Some(AdminRole)
  {
    assert EqualsIgnoreCase("aDmIn", AdminName) by {
      assert forall i :: 0 <= i < 5 ==> Fold("aDmIn"[i]) == Fold(AdminName[i]);
    }
  }

  /** A connection that never joined has no cache record, so its message reaches nobody
      and it gets no error event. */
  lemma SendWithoutCacheRecord(message: string)
    ensures Valid(Step1().state)
    ensures SendMessage(Step2().state, "d", message).events == []
  {
    SecondJoin();
  }
}
