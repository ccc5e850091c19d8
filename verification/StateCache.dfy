/** The guild and member cache. Cached records are shared by reference and overwritten in place, so
    the objects live in an explicit heap that maps references to records: the member index and the
    guilds' member lists must name the same objects whatever is written to them. */
module StateCache {
  import opened Prelude

  datatype Ref = Ref(address: nat)

  /** `joinedAt` is 0 for the zero time. */
  datatype Member = Member(guildID: Id, userID: Id, joinedAt: int, data: string)

  /** `members` is None for a nil slice. */
  datatype Guild = Guild(id: Id, members: Option<seq<Ref>>, memberCount: int)

  type Members = map<Ref, Member>
  type Guilds = map<Ref, Guild>

  /** The objects of one guild's members by user id. */
  type Index = map<Id, Ref>

  datatype State = State(members: Members, guilds: Guilds,
                         guildMap: map<Id, Ref>, memberMap: map<Id, Index>, guildList: seq<Ref>)

  datatype Error = StateNotFound

  function List(g: Guild): seq<Ref>
  {
    if g.members.Some? then g.members.value else []
  }

  // ---- the operations

  /** Whether every reference of a list leads to an object. */
  predicate Known(members: Members, list: seq<Ref>)
  {
    forall i :: 0 <= i < |list| ==> list[i] in members
  }

  /** The index of a list; the last of several entries for a user wins. */
  function IndexOf(members: Members, list: seq<Ref>): Index
    requires Known(members, list)
  {
    if list == [] then map[]
    else
      var last := list[|list| - 1];
      IndexOf(members, list[..|list| - 1])[members[last].userID := last]
  }

  /** Where the first entry for a user is, from a place in the list on. */
  function FirstOf(members: Members, list: seq<Ref>, userID: Id, from: nat): (i: nat)
    requires Known(members, list) && from <= |list|
    ensures from <= i <= |list| && (i < |list| ==> members[list[i]].userID == userID)
    decreases |list| - from
  {
    if from == |list| || members[list[from]].userID == userID then from else FirstOf(members, list, userID, from + 1)
  }

  function Without(list: seq<Ref>, i: nat): seq<Ref>
  {
    if i < |list| then list[..i] + list[i + 1..] else list
  }

  /** Every reference the cache follows leads to an object. */
  ghost predicate Closed(s: State)
  {
    && (forall r :: r in s.guilds ==> Known(s.members, List(s.guilds[r])))
    && (forall k :: k in s.guildMap ==> s.guildMap[k] in s.guilds)
    && (forall k, u :: k in s.memberMap && u in s.memberMap[k] ==> s.memberMap[k][u] in s.members)
    && (forall i :: 0 <= i < |s.guildList| ==> s.guildList[i] in s.guilds)
  }

  /** The record stored for a guild that is cached already: absent parts are kept. */
  function Merged(cached: Guild, guild: Guild): Guild
  {
    Guild(guild.id, if guild.members.None? then cached.members else guild.members,
          if guild.memberCount == 0 then cached.memberCount else guild.memberCount)
  }

  function GuildMembersIndexed(s: State, guild: Guild): map<Id, Index>
    requires Known(s.members, List(guild))
  {
    if guild.members.Some? then s.memberMap[guild.id := IndexOf(s.members, List(guild))]
    else if guild.id !in s.memberMap then s.memberMap[guild.id := map[]]
    else s.memberMap
  }

  function GuildAdd(s: State, ref: Ref): State
    requires Closed(s) && ref in s.guilds
  {
    var guild := s.guilds[ref];
    var indexed := s.(memberMap := GuildMembersIndexed(s, guild));
    if guild.id in s.guildMap then
      var merged := Merged(s.guilds[s.guildMap[guild.id]], guild);
      indexed.(guilds := s.guilds[ref := merged][s.guildMap[guild.id] := merged])
    else
      indexed.(guildList := s.guildList + [ref], guildMap := s.guildMap[guild.id := ref])
  }

  /** Where the first guild of an id is listed, from a place on. */
  function FirstGuild(s: State, id: Id, from: nat): nat
    requires Closed(s) && from <= |s.guildList|
    decreases |s.guildList| - from
  {
    if from == |s.guildList| || s.guilds[s.guildList[from]].id == id then from else FirstGuild(s, id, from + 1)
  }

  function GuildRemove(s: State, id: Id): (State, Option<Error>)
    requires Closed(s)
  {
    if id !in s.guildMap then (s, Some(StateNotFound))
    else
      (s.(guildMap := s.guildMap - {id}, memberMap := s.memberMap - {id},
          guildList := Without(s.guildList, FirstGuild(s, id, 0))), None)
  }

  /** What overwriting a cached member leaves: a missing joining time is kept. */
  function Updated(cached: Member, member: Member): Member
  {
    if member.joinedAt == 0 then member.(joinedAt := cached.joinedAt) else member
  }

  function MemberAdd(s: State, ref: Ref): (State, Option<Error>)
    requires Closed(s) && ref in s.members
  {
    var member := s.members[ref];
    if member.guildID !in s.guildMap || member.guildID !in s.memberMap then (s, Some(StateNotFound))
    else
      var guild, index := s.guildMap[member.guildID], s.memberMap[member.guildID];
      if member.userID !in index then
        (s.(memberMap := s.memberMap[member.guildID := index[member.userID := ref]],
            guilds := s.guilds[guild := s.guilds[guild].(members := Some(List(s.guilds[guild]) + [ref]))]), None)
      else
        var updated := Updated(s.members[index[member.userID]], member);
        (s.(members := s.members[ref := updated][index[member.userID] := updated]), None)
  }

  /** The list loses the user's first entry; the index loses the user first, found in the list or
      not. */
  function MemberRemove(s: State, guildID: Id, userID: Id): (State, Option<Error>)
    requires Closed(s)
  {
    if guildID !in s.guildMap || guildID !in s.memberMap || userID !in s.memberMap[guildID] then
      (s, Some(StateNotFound))
    else
      var unindexed := s.(memberMap := s.memberMap[guildID := s.memberMap[guildID] - {userID}]);
      var guild := s.guildMap[guildID];
      var list := List(s.guilds[guild]);
      var i := FirstOf(s.members, list, userID, 0);
      if i == |list| then (unindexed, Some(StateNotFound))
      else (unindexed.(guilds := s.guilds[guild := s.guilds[guild].(members := Some(Without(list, i)))]), None)
  }

  /** The first n guilds of a ready event entered into the maps. */
  function Entered(s: State, ready: seq<Ref>, n: nat): State
    requires Closed(s) && n <= |ready| && forall i :: 0 <= i < |ready| ==> ready[i] in s.guilds
    ensures Entered(s, ready, n).members == s.members && Entered(s, ready, n).guilds == s.guilds
  {
    if n == 0 then s
    else
      var before := Entered(s, ready, n - 1);
      var guild := s.guilds[ready[n - 1]];
      before.(guildMap := before.guildMap[guild.id := ready[n - 1]],
              memberMap := before.memberMap[guild.id := IndexOf(s.members, List(guild))])
  }

  /** A ready event replaces the list of guilds; guilds cached before stay in the maps. */
  function OnReady(s: State, ready: seq<Ref>, stateEnabled: bool): State
    requires Closed(s) && forall i :: 0 <= i < |ready| ==> ready[i] in s.guilds
  {
    if stateEnabled then Entered(s.(guildList := ready), ready, |ready|) else s.(guildList := [])
  }

  // ---- the cache as the program keeps it

  class Cache {
    var members: Members
    var guilds: Guilds
    var guildMap: map<Id, Ref>
    var memberMap: map<Id, Index>
    var guildList: seq<Ref>

    ghost function View(): State
      reads this
    {
      State(members, guilds, guildMap, memberMap, guildList)
    }

    constructor ()
      ensures View() == CREATED
    {
      members, guilds, guildMap, memberMap, guildList := map[], map[], map[], map[], [];
    }

    method CreateMemberMap(guild: Guild)
      requires Known(members, List(guild))
      modifies this`memberMap
      ensures memberMap == old(memberMap)[guild.id := IndexOf(members, List(guild))]
    {
      var list := List(guild);
      var index: Index := map[];
      var i := 0;
      while i < |list|
        invariant 0 <= i <= |list|
        invariant index == IndexOf(members, list[..i])
      {
        assert list[..i + 1][..i] == list[..i];
        index := index[members[list[i]].userID := list[i]];
        i := i + 1;
      }
      assert list[..i] == list;
      memberMap := memberMap[guild.id := index];
    }

    method AddGuild(ref: Ref)
      requires Closed(View()) && ref in guilds
      modifies this
      ensures View() == GuildAdd(old(View()), ref)
    {
      var guild := guilds[ref];
      if guild.members.Some? {
        CreateMemberMap(guild);
      } else if guild.id !in memberMap {
        memberMap := memberMap[guild.id := map[]];
      }
      if guild.id in guildMap {
        var g := guilds[guildMap[guild.id]];
        if guild.memberCount == 0 {
          guild := guild.(memberCount := g.memberCount);
        }
        if guild.members.None? {
          guild := guild.(members := g.members);
        }
        guilds := guilds[ref := guild];
        guilds := guilds[guildMap[guild.id] := guild];
        return;
      }
      guildList := guildList + [ref];
      guildMap := guildMap[guild.id := ref];
    }

    method RemoveGuild(id: Id) returns (r: Option<Error>)
      requires Closed(View())
      modifies this
      ensures (View(), r) == GuildRemove(old(View()), id)
    {
      if id !in guildMap {
        return Some(StateNotFound);
      }
      guildMap := guildMap - {id};
      memberMap := memberMap - {id};
      var i := 0;
      while i < |guildList|
        invariant 0 <= i <= |guildList| && guildList == old(guildList)
        invariant FirstGuild(old(View()), id, 0) == FirstGuild(old(View()), id, i)
      {
        if guilds[guildList[i]].id == id {
          guildList := guildList[..i] + guildList[i + 1..];
          return None;
        }
        i := i + 1;
      }
      return None;
    }

    method AddMember(ref: Ref) returns (r: Option<Error>)
      requires Closed(View()) && ref in members
      modifies this
      ensures (View(), r) == MemberAdd(old(View()), ref)
    {
      var member := members[ref];
      if member.guildID !in guildMap || member.guildID !in memberMap {
        return Some(StateNotFound);
      }
      var guild, index := guildMap[member.guildID], memberMap[member.guildID];
      if member.userID !in index {
        memberMap := memberMap[member.guildID := index[member.userID := ref]];
        guilds := guilds[guild := guilds[guild].(members := Some(List(guilds[guild]) + [ref]))];
      } else {
        var m := index[member.userID];
        if member.joinedAt == 0 {
          member := member.(joinedAt := members[m].joinedAt);
        }
        members := members[ref := member];
        members := members[m := member];
      }
      return None;
    }

    method RemoveMember(guildID: Id, userID: Id) returns (r: Option<Error>)
      requires Closed(View())
      modifies this
      ensures (View(), r) == MemberRemove(old(View()), guildID, userID)
    {
      if guildID !in guildMap || guildID !in memberMap || userID !in memberMap[guildID] {
        return Some(StateNotFound);
      }
      memberMap := memberMap[guildID := memberMap[guildID] - {userID}];
      var guild := guildMap[guildID];
      var list := List(guilds[guild]);
      var i := 0;
      while i < |list|
        invariant 0 <= i <= |list| && guilds == old(guilds)
        invariant FirstOf(members, list, userID, 0) == FirstOf(members, list, userID, i)
      {
        if members[list[i]].userID == userID {
          guilds := guilds[guild := guilds[guild].(members := Some(list[..i] + list[i + 1..]))];
          return None;
        }
        i := i + 1;
      }
      return Some(StateNotFound);
    }

    method Ready(ready: seq<Ref>, stateEnabled: bool)
      requires Closed(View()) && forall i :: 0 <= i < |ready| ==> ready[i] in guilds
      modifies this
      ensures View() == OnReady(old(View()), ready, stateEnabled)
    {
      hide IndexOf, Known;
      if !stateEnabled {
        guildList := [];
        return;
      }
      guildList := ready;
      ghost var s := View();
      var i := 0;
      while i < |guildList|
        invariant 0 <= i <= |guildList| && guildList == ready && members == s.members && guilds == s.guilds
        invariant View() == Entered(s, ready, i)
      {
        var g := guilds[guildList[i]];
        guildMap := guildMap[g.id := guildList[i]];
        CreateMemberMap(g);
        i := i + 1;
      }
    }
  }

  // ---- agreement

  const CREATED := State(map[], map[], map[], map[], [])

  ghost predicate UniqueUsers(members: Members, list: seq<Ref>)
    requires Known(members, list)
  {
    forall i, j :: 0 <= i < j < |list| ==> members[list[i]].userID != members[list[j]].userID
  }

  /** The index holds exactly the list's objects, each under its own user id. */
  ghost predicate Indexed(members: Members, list: seq<Ref>, index: Index)
  {
    && Known(members, list) && UniqueUsers(members, list)
    && (forall i :: 0 <= i < |list| ==> members[list[i]].userID in index && index[members[list[i]].userID] == list[i])
    && (forall u :: u in index ==> index[u] in list && index[u] in members && members[index[u]].userID == u)
  }

  ghost predicate Agrees(s: State, k: Id)
  {
    && k in s.guildMap && k in s.memberMap && s.guildMap[k] in s.guilds
    && s.guilds[s.guildMap[k]].id == k && Indexed(s.members, List(s.guilds[s.guildMap[k]]), s.memberMap[k])
  }

  ghost predicate AllAgree(s: State)
  {
    forall k :: k in s.guildMap || k in s.memberMap ==> Agrees(s, k)
  }

  lemma {:induction false} IndexOfIndexes(members: Members, list: seq<Ref>)
    requires Known(members, list) && UniqueUsers(members, list)
    ensures Indexed(members, list, IndexOf(members, list))
  {
    if list != [] {
      var init, last := list[..|list| - 1], list[|list| - 1];
      IndexOfIndexes(members, init);
      AppendKeepsIndexed(members, init, IndexOf(members, init), last);
      assert init + [last] == list;
    }
  }

  lemma AppendKeepsIndexed(members: Members, list: seq<Ref>, index: Index, m: Ref)
    requires Indexed(members, list, index) && m in members
    requires forall i :: 0 <= i < |list| ==> members[list[i]].userID != members[m].userID
    ensures Indexed(members, list + [m], index[members[m].userID := m])
  {
    var index' := index[members[m].userID := m];
    forall u | u in index' ensures index'[u] in list + [m] {
      if u == members[m].userID { assert (list + [m])[|list|] == m; }
    }
  }

  lemma WithoutKeepsIndexed(members: Members, list: seq<Ref>, index: Index, i: nat)
    requires Indexed(members, list, index) && i < |list|
    ensures Indexed(members, Without(list, i), index - {members[list[i]].userID})
  {
    var rest, index' := Without(list, i), index - {members[list[i]].userID};
    assert forall j :: 0 <= j < |rest| ==> rest[j] == list[if j < i then j else j + 1];
    forall u | u in index' ensures index'[u] in rest {
      var j :| 0 <= j < |list| && list[j] == index[u];
      assert rest[if j < i then j else j - 1] == list[j];
    }
  }

  /** Overwriting an object with a record of the same user keeps every list and index in agreement. */
  lemma OverwriteKeepsIndexed(members: Members, list: seq<Ref>, index: Index, m: Ref, record: Member)
    requires Indexed(members, list, index) && m in members && members[m].userID == record.userID
    ensures Indexed(members[m := record], list, index)
  {
  }

  lemma {:induction false} FirstOfFinds(members: Members, list: seq<Ref>, userID: Id, from: nat, j: nat)
    requires Known(members, list) && from <= j < |list| && members[list[j]].userID == userID
    ensures FirstOf(members, list, userID, from) <= j
    decreases j - from
  {
    if from < j { FirstOfFinds(members, list, userID, from + 1, j); }
  }

  // ---- every step keeps the agreement

  ghost predicate Sound(s: State)
  {
    Closed(s) && AllAgree(s)
  }

  /** What the caches need of an index, and the one of an empty list. */
  lemma IndexedRefs(members: Members, list: seq<Ref>, index: Index)
    requires Indexed(members, list, index)
    ensures forall u :: u in index ==> index[u] in members
    ensures Indexed(members, [], map[])
  {
  }

  lemma GuildAddCloses(s: State, ref: Ref)
    requires Sound(s) && ref in s.guilds && UniqueUsers(s.members, List(s.guilds[ref]))
    ensures Closed(GuildAdd(s, ref))
  {
    hide Indexed, IndexOf, AllAgree;
    var list := List(s.guilds[ref]);
    IndexOfIndexes(s.members, list);
    IndexedRefs(s.members, list, IndexOf(s.members, list));
  }

  /** The added guild agrees: with its own list, or with the cached one it keeps. */
  lemma AddedGuildAgrees(s: State, ref: Ref)
    requires Sound(s) && ref in s.guilds && UniqueUsers(s.members, List(s.guilds[ref]))
    ensures Agrees(GuildAdd(s, ref), s.guilds[ref].id)
  {
    hide Indexed, IndexOf;
    var guild := s.guilds[ref];
    IndexOfIndexes(s.members, List(guild));
    IndexedRefs(s.members, List(guild), IndexOf(s.members, List(guild)));
    if guild.id in s.guildMap || guild.id in s.memberMap { assert Agrees(s, guild.id); }
  }

  lemma GuildAddKeeps(s: State, ref: Ref)
    requires Sound(s) && ref in s.guilds && UniqueUsers(s.members, List(s.guilds[ref]))
    ensures Sound(GuildAdd(s, ref))
  {
    GuildAddCloses(s, ref);
    AddedGuildAgrees(s, ref);
    forall k | k != s.guilds[ref].id && (k in GuildAdd(s, ref).guildMap || k in GuildAdd(s, ref).memberMap)
      ensures Agrees(GuildAdd(s, ref), k)
    {
      OtherGuildAgrees(s, ref, k);
    }
  }

  lemma OtherGuildAgrees(s: State, ref: Ref, k: Id)
    requires Sound(s) && ref in s.guilds && k != s.guilds[ref].id && (k in s.guildMap || k in s.memberMap)
    ensures Agrees(GuildAdd(s, ref), k)
  {
    hide Indexed, IndexOf;
    assert Agrees(s, k);
    if s.guilds[ref].id in s.guildMap { assert Agrees(s, s.guilds[ref].id); }
  }

  lemma GuildRemoveKeeps(s: State, id: Id)
    requires Sound(s)
    ensures Sound(GuildRemove(s, id).0)
  {
    var s' := GuildRemove(s, id).0;
    forall k | k in s'.guildMap || k in s'.memberMap ensures Agrees(s', k) { assert Agrees(s, k); }
  }

  lemma MemberAddKeeps(s: State, ref: Ref)
    requires Sound(s) && ref in s.members
    ensures Sound(MemberAdd(s, ref).0)
  {
    var member, s' := s.members[ref], MemberAdd(s, ref).0;
    if member.guildID in s.guildMap {
      assert Agrees(s, member.guildID);
      var list, index := List(s.guilds[s.guildMap[member.guildID]]), s.memberMap[member.guildID];
      if member.userID !in index { AppendKeepsIndexed(s.members, list, index, ref); }
      forall k | k in s'.guildMap || k in s'.memberMap ensures Agrees(s', k) {
        assert Agrees(s, k);
        if member.userID in index { OverwriteKeepsAgreement(s, k, ref, index[member.userID]); }
      }
    }
  }

  lemma OverwriteKeepsAgreement(s: State, k: Id, ref: Ref, m: Ref)
    requires Agrees(s, k) && ref in s.members && m in s.members && s.members[m].userID == s.members[ref].userID
    ensures var updated := Updated(s.members[m], s.members[ref]);
            Agrees(s.(members := s.members[ref := updated][m := updated]), k)
  {
    var updated := Updated(s.members[m], s.members[ref]);
    var list, index := List(s.guilds[s.guildMap[k]]), s.memberMap[k];
    OverwriteKeepsIndexed(s.members, list, index, ref, updated);
    OverwriteKeepsIndexed(s.members[ref := updated], list, index, m, updated);
  }

  lemma CachedIsListed(s: State, guildID: Id, userID: Id)
    requires Sound(s) && guildID in s.memberMap && userID in s.memberMap[guildID]
    ensures var list := List(s.guilds[s.guildMap[guildID]]);
            var i := FirstOf(s.members, list, userID, 0);
            i < |list| && Indexed(s.members, Without(list, i), s.memberMap[guildID] - {userID})
  {
    assert Agrees(s, guildID);
    var list, index := List(s.guilds[s.guildMap[guildID]]), s.memberMap[guildID];
    var j :| 0 <= j < |list| && list[j] == index[userID];
    FirstOfFinds(s.members, list, userID, 0, j);
    WithoutKeepsIndexed(s.members, list, index, FirstOf(s.members, list, userID, 0));
  }

  lemma MemberRemoveKeeps(s: State, guildID: Id, userID: Id)
    requires Sound(s)
    ensures Sound(MemberRemove(s, guildID, userID).0)
    ensures MemberRemove(s, guildID, userID).1.None? <==> guildID in s.memberMap && userID in s.memberMap[guildID]
  {
    var s' := MemberRemove(s, guildID, userID).0;
    if guildID in s.memberMap {
      assert Agrees(s, guildID);
      if userID in s.memberMap[guildID] { CachedIsListed(s, guildID, userID); }
    }
    forall k | k in s'.guildMap || k in s'.memberMap ensures Agrees(s', k) { assert Agrees(s, k); }
  }

  lemma {:induction false} EnteredKeeps(s: State, ready: seq<Ref>, n: nat)
    requires Sound(s) && n <= |ready|
    requires forall i :: 0 <= i < |ready| ==> ready[i] in s.guilds && UniqueUsers(s.members, List(s.guilds[ready[i]]))
    ensures Sound(Entered(s, ready, n))
  {
    if n > 0 {
      EnteredKeeps(s, ready, n - 1);
      var before, s' := Entered(s, ready, n - 1), Entered(s, ready, n);
      var guild := s.guilds[ready[n - 1]];
      IndexOfIndexes(s.members, List(guild));
      forall k | k in s'.guildMap || k in s'.memberMap ensures Agrees(s', k) {
        if k != guild.id { assert Agrees(before, k); }
      }
    }
  }

  lemma OnReadyKeeps(s: State, ready: seq<Ref>, stateEnabled: bool)
    requires Sound(s)
    requires forall i :: 0 <= i < |ready| ==> ready[i] in s.guilds && UniqueUsers(s.members, List(s.guilds[ready[i]]))
    ensures Sound(OnReady(s, ready, stateEnabled))
  {
    var listed := s.(guildList := if stateEnabled then ready else []);
    forall k | k in listed.guildMap || k in listed.memberMap ensures Agrees(listed, k) { assert Agrees(s, k); }
    EnteredKeeps(listed, ready, if stateEnabled then |ready| else 0);
  }

  // ---- runs

  /** Objects are decoded from the gateway, and the cache is told about them. */
  datatype Event =
    | MemberDecoded(ref: Ref, member: Member)
    | GuildDecoded(ref: Ref, guild: Guild)
    | GuildAdded(ref: Ref)
    | GuildRemoved(id: Id)
    | MemberAdded(ref: Ref)
    | MemberRemoved(guildID: Id, userID: Id)
    | WasReady(ready: seq<Ref>, stateEnabled: bool)

  /** Decoding makes new objects; events name decoded ones and list no user twice in a guild. */
  ghost predicate Enabled(s: State, e: Event)
    requires Closed(s)
  {
    match e
    case MemberDecoded(ref, _) => ref !in s.members
    case GuildDecoded(ref, guild) => ref !in s.guilds && Known(s.members, List(guild))
    case GuildAdded(ref) => ref in s.guilds && UniqueUsers(s.members, List(s.guilds[ref]))
    case MemberAdded(ref) => ref in s.members
    case WasReady(ready, _) =>
      forall i :: 0 <= i < |ready| ==> ready[i] in s.guilds && UniqueUsers(s.members, List(s.guilds[ready[i]]))
    case _ => true
  }

  ghost function Step(s: State, e: Event): State
    requires Closed(s) && Enabled(s, e)
  {
    match e
    case MemberDecoded(ref, member) => s.(members := s.members[ref := member])
    case GuildDecoded(ref, guild) => s.(guilds := s.guilds[ref := guild])
    case GuildAdded(ref) => GuildAdd(s, ref)
    case GuildRemoved(id) => GuildRemove(s, id).0
    case MemberAdded(ref) => MemberAdd(s, ref).0
    case MemberRemoved(guildID, userID) => MemberRemove(s, guildID, userID).0
    case WasReady(ready, stateEnabled) => OnReady(s, ready, stateEnabled)
  }

  lemma DecodingKeeps(s: State, e: Event)
    requires Sound(s) && Enabled(s, e) && (e.MemberDecoded? || e.GuildDecoded?)
    ensures Sound(Step(s, e))
  {
    var s' := Step(s, e);
    forall k | k in s'.guildMap || k in s'.memberMap ensures Agrees(s', k) { assert Agrees(s, k); }
  }

  lemma StepKeepsSound(s: State, e: Event)
    requires Sound(s) && Enabled(s, e)
    ensures Sound(Step(s, e))
  {
    match e
    case MemberDecoded(_, _) => DecodingKeeps(s, e);
    case GuildDecoded(_, _) => DecodingKeeps(s, e);
    case GuildAdded(ref) => GuildAddKeeps(s, ref);
    case GuildRemoved(id) => GuildRemoveKeeps(s, id);
    case MemberAdded(ref) => MemberAddKeeps(s, ref);
    case MemberRemoved(guildID, userID) => MemberRemoveKeeps(s, guildID, userID);
    case WasReady(ready, stateEnabled) => OnReadyKeeps(s, ready, stateEnabled);
  }

  /** Whether a sequence of states is a run of the events from an empty cache. */
  ghost predicate IsRun(events: seq<Event>, states: seq<State>)
  {
    && |states| == |events| + 1 && states[0] == CREATED
    && forall i :: 0 <= i < |events| ==> Follows(states[i], events[i], states[i + 1])
  }

  ghost predicate Follows(s: State, e: Event, s': State)
  {
    Closed(s) && Enabled(s, e) && s' == Step(s, e)
  }

  /** In every state of every run each cached guild's index holds exactly the objects of its list,
      and the two maps have the same guilds. */
  lemma {:induction false} EveryRunAgrees(events: seq<Event>, states: seq<State>, n: nat)
    requires IsRun(events, states) && n < |states|
    ensures Sound(states[n])
  {
    if n > 0 {
      EveryRunAgrees(events, states, n - 1);
      assert Follows(states[n - 1], events[n - 1], states[n]);
      StepKeepsSound(states[n - 1], events[n - 1]);
    }
  }

  // ---- lookups

  function Lookup(s: State, guildID: Id, userID: Id): Option<Member>
    requires Closed(s)
  {
    if guildID in s.memberMap && userID in s.memberMap[guildID] then Some(s.members[s.memberMap[guildID][userID]])
    else None
  }

  lemma CachedAgrees(s: State, k: Id)
    requires Sound(s) && k in s.guildMap
    ensures Agrees(s, k)
  {
  }

  /** An added member is found afterwards, with the old joining time if it brought none, in the
      guild's list as well as in the index, and the given object reads the same; no other member of its
      guild changes. */
  lemma AddedIsFound(s: State, ref: Ref, userID: Id)
    requires Sound(s) && ref in s.members && s.members[ref].guildID in s.guildMap
    ensures var member, s' := s.members[ref], MemberAdd(s, ref).0;
            var cached := Lookup(s, member.guildID, member.userID);
            && Sound(s')
            && Lookup(s', member.guildID, member.userID)
               == Some(if cached.Some? && member.joinedAt == 0 then member.(joinedAt := cached.value.joinedAt)
                       else member)
            && s'.members[ref] == Lookup(s', member.guildID, member.userID).value
            && s'.memberMap[member.guildID][member.userID] in List(s'.guilds[s'.guildMap[member.guildID]])
            && (userID != member.userID ==> Lookup(s', member.guildID, userID) == Lookup(s, member.guildID, userID))
  {
    hide AllAgree;
    MemberAddKeeps(s, ref);
    CachedAgrees(s, s.members[ref].guildID);
    CachedAgrees(MemberAdd(s, ref).0, s.members[ref].guildID);
  }

  /** A removed member is found neither in the index nor in the list, and no other member of its
      guild changes. */
  lemma RemovedIsGone(s: State, guildID: Id, userID: Id, other: Id)
    requires Sound(s) && guildID in s.guildMap
    ensures var s' := MemberRemove(s, guildID, userID).0;
            && Closed(s') && Lookup(s', guildID, userID) == None
            && (other != userID ==> Lookup(s', guildID, other) == Lookup(s, guildID, other))
            && forall m :: m in List(s'.guilds[s'.guildMap[guildID]]) ==> s'.members[m].userID != userID
  {
    hide FirstOf, Without, AllAgree;
    MemberRemoveKeeps(s, guildID, userID);
    CachedAgrees(s, guildID);
    CachedAgrees(MemberRemove(s, guildID, userID).0, guildID);
  }
}
