/** The hub's `ConnectedUsers` dictionary: connection id to `UserConnection`.
    It is kept as a sequence of entries with unique ids, so that "the first entry
    whose name matches" and "the first fifty results" have a fixed meaning. */
module Registry {
  import opened Wrappers
  import opened Models
  import opened Text

  type ConnectionId = string

  datatype Entry = Entry(id: ConnectionId, user: UserConnection)

  /** Dictionary keys are unique. */
  predicate UniqueIds(r: seq<Entry>) {
    forall i, j :: 0 <= i < j < |r| ==> r[i].id != r[j].id
  }

  predicate HasId(r: seq<Entry>, id: ConnectionId) {
    exists i :: 0 <= i < |r| && r[i].id == id
  }

  /** The index of the first entry at or after `from` that satisfies `p`. */
  function FirstFrom(r: seq<Entry>, p: Entry -> bool, from: nat): (k: Option<nat>)
    requires from <= |r|
    ensures k.Some? ==> from <= k.value < |r| && p(r[k.value])
    ensures k.Some? ==> forall i :: from <= i < k.value ==> !p(r[i])
    ensures k.None? ==> forall i :: from <= i < |r| ==> !p(r[i])
    decreases |r| - from
  {
    if from == |r| then None
    else if p(r[from]) then Some(from)
    else FirstFrom(r, p, from + 1)
  }

  /** `FirstOrDefault(p)` over the dictionary, as an index. */
  function First(r: seq<Entry>, p: Entry -> bool): (k: Option<nat>)
    ensures k.Some? ==> k.value < |r| && p(r[k.value])
    ensures k.Some? ==> forall i :: 0 <= i < k.value ==> !p(r[i])
    ensures k.None? ==> forall i :: 0 <= i < |r| ==> !p(r[i])
  {
    FirstFrom(r, p, 0)
  }

  function IndexOfId(r: seq<Entry>, id: ConnectionId): (k: Option<nat>)
    ensures k.Some? ==> k.value < |r| && r[k.value].id == id
    ensures k.None? <==> !HasId(r, id)
    ensures UniqueIds(r) ==> forall i :: 0 <= i < |r| && r[i].id == id ==> k == Some(i)
  {
    First(r, (e: Entry) => e.id == id)
  }

  /** `TryGetValue(id)`. */
  function Lookup(r: seq<Entry>, id: ConnectionId): (o: Option<UserConnection>)
    ensures o.Some? <==> HasId(r, id)
    ensures UniqueIds(r) ==> forall i :: 0 <= i < |r| && r[i].id == id ==> o == Some(r[i].user)
  {
    match IndexOfId(r, id)
    case Some(k) => Some(r[k].user)
    case None => None
  }

  /** `dict[id] = u`: an existing entry is replaced where it stands, a new one goes last. */
  function Put(r: seq<Entry>, id: ConnectionId, u: UserConnection): (r': seq<Entry>)
    requires UniqueIds(r)
    ensures UniqueIds(r')
    ensures Lookup(r', id) == Some(u)
    ensures forall x :: x != id ==> Lookup(r', x) == Lookup(r, x)
    ensures HasId(r, id) ==> |r'| == |r|
    ensures HasId(r, id) ==> forall i :: 0 <= i < |r| ==> r'[i] == (if r[i].id == id then Entry(id, u) else r[i])
    ensures !HasId(r, id) ==> r' == r + [Entry(id, u)]
  {
    match IndexOfId(r, id)
    case Some(k) =>
      var r' := r[k := Entry(id, u)];
      assert r'[k] == Entry(id, u);
      forall x | x != id
        ensures Lookup(r', x) == Lookup(r, x)
      {
        if HasId(r, x) {
          var i :| 0 <= i < |r| && r[i].id == x;
          assert r'[i] == r[i];
        } else {
          assert !HasId(r', x);
        }
      }
      r'
    case None =>
      var r' := r + [Entry(id, u)];
      assert r'[|r|] == Entry(id, u);
      forall x | x != id
        ensures Lookup(r', x) == Lookup(r, x)
      {
        if HasId(r, x) {
          var i :| 0 <= i < |r| && r[i].id == x;
          assert r'[i] == r[i];
        } else {
          assert !HasId(r', x);
        }
      }
      r'
  }

  /** `dict.Remove(id)`: the entry is cut out and every other entry keeps its relative order. */
  function Remove(r: seq<Entry>, id: ConnectionId): (r': seq<Entry>)
    requires UniqueIds(r)
    ensures UniqueIds(r')
    ensures !HasId(r', id)
    ensures forall x :: x != id ==> Lookup(r', x) == Lookup(r, x)
    ensures HasId(r, id) ==> |r'| == |r| - 1
    ensures HasId(r, id) ==> var k := IndexOfId(r, id).value; r[k].id == id && r' == r[..k] + r[k + 1..]
    ensures !HasId(r, id) ==> r' == r
  {
    match IndexOfId(r, id)
    case Some(k) =>
      var r' := r[..k] + r[k + 1..];
      assert forall i :: 0 <= i < |r'| ==> r'[i] == (if i < k then r[i] else r[i + 1]);
      forall x | x != id
        ensures Lookup(r', x) == Lookup(r, x)
      {
        if HasId(r, x) {
          var i :| 0 <= i < |r| && r[i].id == x;
          if i < k { assert r'[i] == r[i]; } else { assert r'[i - 1] == r[i]; }
        }
      }
      r'
    case None => r
  }

  /** `dict.Values.Select(u => new UserInfo(...))`: one projection per entry, in order. */
  function Snapshot(r: seq<Entry>): (s: seq<UserInfo>)
    ensures |s| == |r|
    ensures forall i :: 0 <= i < |r| ==> s[i] == Info(r[i].user)
  {
    seq(|r|, i requires 0 <= i < |r| => Info(r[i].user))
  }

  /** The search predicate: the user name contains the term, ignoring case. */
  predicate NameMatches(e: Entry, term: string) {
    ContainsIgnoreCase(e.user.UserName, term)
  }

  /** `dict.Values.Where(...)`: the matching entries, in registry order. */
  function Matching(r: seq<Entry>, term: string): (f: seq<Entry>)
    ensures |f| <= |r|
    ensures forall e :: e in f ==> e in r && NameMatches(e, term)
  {
    if |r| == 0 then []
    else Matching(r[..|r| - 1], term) + (if NameMatches(r[|r| - 1], term) then [r[|r| - 1]] else [])
  }

  /** Extending the registry prefix by one entry adds that entry to the matches exactly when it matches. */
  lemma MatchingStep(r: seq<Entry>, term: string, i: nat)
    requires i < |r|
    ensures Matching(r[..i + 1], term)
            == Matching(r[..i], term) + (if NameMatches(r[i], term) then [r[i]] else [])
  {
    assert r[..i + 1][..i] == r[..i];
  }

  /** Every match, read by position, has a name containing the term. */
  lemma MatchingNames(r: seq<Entry>, term: string)
    ensures forall j :: 0 <= j < |Matching(r, term)| ==> ContainsIgnoreCase(Matching(r, term)[j].user.UserName, term)
  {
    var f := Matching(r, term);
    forall j | 0 <= j < |f|
      ensures ContainsIgnoreCase(f[j].user.UserName, term)
    {
      assert f[j] in f;
    }
  }

  /** Every matching entry of the registry is among the search matches. */
  lemma {:induction false} MatchingComplete(r: seq<Entry>, term: string)
    ensures forall i :: 0 <= i < |r| && NameMatches(r[i], term) ==> r[i] in Matching(r, term)
  {
    if |r| > 0 {
      var init := r[..|r| - 1];
      MatchingComplete(init, term);
      forall i | 0 <= i < |r| - 1 && NameMatches(r[i], term)
        ensures r[i] in Matching(r, term)
      {
        assert init[i] == r[i];
      }
    }
  }

  /** Matching is monotone in the registry: the matches of a prefix are a prefix of the matches. */
  lemma {:induction false} MatchingPrefix(r: seq<Entry>, term: string, n: nat)
    requires n <= |r|
    ensures Matching(r[..n], term) <= Matching(r, term)
    decreases |r| - n
  {
    if n < |r| {
      var init := r[..|r| - 1];
      assert init[..n] == r[..n];
      MatchingPrefix(init, term, n);
    } else {
      assert r[..n] == r;
    }
  }

  /** The empty term matches every entry, so the matches are the whole registry. */
  lemma {:induction false} MatchingEmptyTerm(r: seq<Entry>)
    ensures Matching(r, "") == r
  {
    if |r| > 0 {
      var init, last := r[..|r| - 1], r[|r| - 1];
      MatchingEmptyTerm(init);
      EmptyContained(last.user.UserName);
      assert NameMatches(last, "");
      assert Matching(r, "") == Matching(init, "") + [last];
      assert init + [last] == r;
    }
  }
}
