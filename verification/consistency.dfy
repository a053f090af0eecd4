/** The hub keeps two per-connection records, the registry and the cache, and a third view,
    the groups. This module states which operations keep them in step and exhibits the
    operations after which they differ. */
module Consistency {
  import opened Wrappers
  import opened Models
  import opened Registry
  import opened ChatHub
  import opened HubProperties

  /** Every cached record is the registry's record for that connection. */
  ghost predicate CacheAgrees(st: HubState) {
    forall id :: id in st.cache ==> Lookup(st.registry, id) == Some(st.cache[id])
  }

  /** Every group member has a cached record naming that group as its room. */
  ghost predicate GroupsAgree(st: HubState) {
    forall room, id :: id in Members(st.groups, room) ==> id in st.cache && st.cache[id].ChatRoom == room
  }

  lemma JoinKeepsCacheAgreement(st: HubState, caller: ConnectionId, c: UserConnection)
    requires Valid(st) && CacheAgrees(st)
    ensures CacheAgrees(JoinChat(st, caller, c).state)
  {
    var s1 := JoinChat(st, caller, c).state;
    forall id | id in s1.cache
      ensures Lookup(s1.registry, id) == Some(s1.cache[id])
    {
      if id != caller {
        assert id in st.cache;
      }
    }
  }

  /** A first join of a connection subscribes it to exactly the room its records name. */
  lemma JoinKeepsGroupsAgreement(st: HubState, caller: ConnectionId, c: UserConnection)
    requires Valid(st) && GroupsAgree(st) && caller !in st.cache
    ensures GroupsAgree(JoinChat(st, caller, c).state)
  {
    var s1 := JoinChat(st, caller, c).state;
    forall room, id | id in Members(s1.groups, room)
      ensures id in s1.cache && s1.cache[id].ChatRoom == room
    {
      if id != caller || room != c.ChatRoom {
        assert id in Members(st.groups, room);
      }
    }
  }

  /** A second `JoinChat` on the same connection with another room leaves the connection
      in the group of its first room as well. */
  lemma RejoinLeavesStaleGroup()
    ensures var s0 := HubState([], map[], map[]);
            var s1 := JoinChat(s0, "c1", UserConnection("Ann", "lobby")).state;
            var s2 := JoinChat(s1, "c1", UserConnection("Ann", "games")).state;
            GroupsAgree(s1) && !GroupsAgree(s2)
  {
    var s0 := HubState([], map[], map[]);
    JoinKeepsGroupsAgreement(s0, "c1", UserConnection("Ann", "lobby"));
    var s1 := JoinChat(s0, "c1", UserConnection("Ann", "lobby")).state;
    var s2 := JoinChat(s1, "c1", UserConnection("Ann", "games")).state;
    assert "c1" in Members(s2.groups, "lobby");
    assert s2.cache["c1"].ChatRoom == "games";
  }

  lemma DisconnectKeepsAgreement(st: HubState, caller: ConnectionId)
    requires CacheAgrees(st) && GroupsAgree(st)
    ensures CacheAgrees(OnDisconnected(st, caller).state)
    ensures GroupsAgree(OnDisconnected(st, caller).state)
  {
    var s1 := OnDisconnected(st, caller).state;
    if caller in st.cache {
      var room := st.cache[caller].ChatRoom;
      assert s1.registry == st.registry && s1.cache == st.cache - {caller};
      forall id | id in s1.cache
        ensures Lookup(s1.registry, id) == Some(s1.cache[id])
      {
        assert id in st.cache;
      }
      forall r, id | id in Members(s1.groups, r)
        ensures id in s1.cache && s1.cache[id].ChatRoom == r
      {
        assert id in Members(st.groups, r);
        assert id != caller || r != room;
      }
    }
  }

  lemma RemoveUserKeepsGroupsAgreement(st: HubState, caller: ConnectionId, target: string)
    requires Valid(st) && GroupsAgree(st)
    ensures GroupsAgree(RemoveUser(st, caller, target).state)
  {
    var s1 := RemoveUser(st, caller, target).state;
    forall room, id | id in Members(s1.groups, room)
      ensures id in s1.cache && s1.cache[id].ChatRoom == room
    {
      assert id in Members(st.groups, room);
    }
  }

  /** A successful removal of a connection that has a cache record leaves that record behind
      with no registry entry: the cache no longer agrees with the registry. */
  lemma RemoveUserBreaksCacheAgreement(st: HubState, caller: ConnectionId, target: string, k: nat)
    requires Valid(st) && IsAdmin(st, caller)
    requires target != Lookup(st.registry, caller).value.UserName
    requires FirstNamed(st.registry, target, k) && st.registry[k].id in st.cache
    ensures !CacheAgrees(RemoveUser(st, caller, target).state)
  {
    RemoveUserSucceeds(st, caller, target, k);
    var s1 := RemoveUser(st, caller, target).state;
    assert Lookup(s1.registry, st.registry[k].id).None?;
  }

  lemma MakeAdminKeepsAgreement(st: HubState, caller: ConnectionId, target: string)
    requires Valid(st) && CacheAgrees(st) && GroupsAgree(st)
    ensures CacheAgrees(MakeAdmin(st, caller, target).state)
    ensures GroupsAgree(MakeAdmin(st, caller, target).state)
  {
    if MakeAdmin(st, caller, target).events != [] {
      var k := FindByName(st.registry, target).value;
      PromotionKeepsCacheAgreement(st, caller, target, k);
      PromotionKeepsGroupsAgreement(st, caller, target, k);
    }
  }

  /** A successful promotion writes the same record to the registry and the cache. */
  lemma PromotionKeepsCacheAgreement(st: HubState, caller: ConnectionId, target: string, k: nat)
    requires Valid(st) && CacheAgrees(st) && IsAdmin(st, caller) && FirstNamed(st.registry, target, k)
    ensures CacheAgrees(MakeAdmin(st, caller, target).state)
  {
    MakeAdminSucceeds(st, caller, target, k);
    var e := st.registry[k];
    var s1 := MakeAdmin(st, caller, target).state;
    forall id | id in s1.cache
      ensures Lookup(s1.registry, id) == Some(s1.cache[id])
    {
      if id != e.id {
        assert id in st.cache;
      }
    }
  }

  /** A successful promotion keeps the promoted connection's room in its cached record. */
  lemma PromotionKeepsGroupsAgreement(st: HubState, caller: ConnectionId, target: string, k: nat)
    requires Valid(st) && CacheAgrees(st) && GroupsAgree(st) && IsAdmin(st, caller) && FirstNamed(st.registry, target, k)
    ensures GroupsAgree(MakeAdmin(st, caller, target).state)
  {
    MakeAdminSucceeds(st, caller, target, k);
    var e := st.registry[k];
    var s1 := MakeAdmin(st, caller, target).state;
    forall room, id | id in Members(s1.groups, room)
      ensures id in s1.cache && s1.cache[id].ChatRoom == room
    {
      assert id in Members(st.groups, room);
      if id == e.id {
        assert Lookup(st.registry, id) == Some(e.user);
      }
    }
  }
}
