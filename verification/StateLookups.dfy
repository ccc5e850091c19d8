/** What the cache answers after each call: the guild and its members as last told, and everything
    else as before. */
module StateLookups {
  import opened Prelude
  import opened StateCache

  function GuildFound(s: State, id: Id): Option<Guild>
    requires Closed(s)
  {
    if id in s.guildMap then Some(s.guilds[s.guildMap[id]]) else None
  }

  /** The user's record among a list's objects, if there is one. */
  ghost predicate ListedAs(members: Members, list: seq<Ref>, userID: Id, found: Option<Member>)
    requires Known(members, list)
  {
    match found
    case Some(m) => m.userID == userID && exists i :: 0 <= i < |list| && members[list[i]] == m
    case None => forall i :: 0 <= i < |list| ==> members[list[i]].userID != userID
  }

  lemma LookupIsListed(s: State, k: Id, userID: Id)
    requires Sound(s) && k in s.guildMap
    ensures ListedAs(s.members, List(s.guilds[s.guildMap[k]]), userID, Lookup(s, k, userID))
  {
    CachedAgrees(s, k);
    var list, index := List(s.guilds[s.guildMap[k]]), s.memberMap[k];
    if userID in index {
      var i :| 0 <= i < |list| && list[i] == index[userID];
      assert s.members[list[i]] == s.members[index[userID]];
    }
  }

  /** An added guild is found with what it brought: its members as they are listed and no others, and
      its member count. What it did not bring is what was cached before; the given object reads so too. */
  lemma AddedGuildIsFound(s: State, ref: Ref, userID: Id)
    requires Sound(s) && ref in s.guilds && UniqueUsers(s.members, List(s.guilds[ref]))
    ensures var guild, s' := s.guilds[ref], GuildAdd(s, ref);
            var cached := GuildFound(s, guild.id);
            && Sound(s') && GuildFound(s', guild.id).Some?
            && (guild.members.Some? ==> ListedAs(s.members, List(guild), userID, Lookup(s', guild.id, userID)))
            && (guild.members.None? ==> Lookup(s', guild.id, userID) == Lookup(s, guild.id, userID))
            && var found := GuildFound(s', guild.id).value;
               && found.id == guild.id && s'.guilds[ref] == found
               && found.memberCount == (if guild.memberCount != 0 then guild.memberCount
                                        else if cached.Some? then cached.value.memberCount else 0)
               && found.members == (if guild.members.Some? then guild.members
                                    else if cached.Some? then cached.value.members else None)
  {
    hide Indexed, UniqueUsers, Lookup;
    GuildAddKeeps(s, ref);
    var guild, s' := s.guilds[ref], GuildAdd(s, ref);
    AddedRecord(s, ref);
    if guild.members.Some? {
      LookupIsListed(s', guild.id, userID);
      assert List(s'.guilds[s'.guildMap[guild.id]]) == List(guild);
    } else {
      KeptMembers(s, ref, userID);
    }
  }

  lemma KeptMembers(s: State, ref: Ref, userID: Id)
    requires Sound(s) && ref in s.guilds && s.guilds[ref].members.None? && Closed(GuildAdd(s, ref))
    ensures Lookup(GuildAdd(s, ref), s.guilds[ref].id, userID) == Lookup(s, s.guilds[ref].id, userID)
  {
  }

  lemma AddedRecord(s: State, ref: Ref)
    requires Sound(s) && ref in s.guilds && Closed(GuildAdd(s, ref))
    ensures var guild, s' := s.guilds[ref], GuildAdd(s, ref);
            var cached := GuildFound(s, guild.id);
            && s'.members == s.members && GuildFound(s', guild.id).Some?
            && var found := GuildFound(s', guild.id).value;
               && found.id == guild.id && s'.guilds[ref] == found
               && found.memberCount == (if guild.memberCount != 0 then guild.memberCount
                                        else if cached.Some? then cached.value.memberCount else 0)
               && found.members == (if guild.members.Some? then guild.members
                                    else if cached.Some? then cached.value.members else None)
  {
  }

  /** Other guilds are found as before, and a guild is appended to the list exactly if it was not
      cached. */
  lemma AddedGuildLeavesOthers(s: State, ref: Ref, k: Id, userID: Id)
    requires Sound(s) && ref in s.guilds && UniqueUsers(s.members, List(s.guilds[ref])) && k != s.guilds[ref].id
    ensures var s' := GuildAdd(s, ref);
            && Closed(s') && Lookup(s', k, userID) == Lookup(s, k, userID) && GuildFound(s', k) == GuildFound(s, k)
            && s'.guildList == if s.guilds[ref].id in s.guildMap then s.guildList else s.guildList + [ref]
  {
    hide Indexed, UniqueUsers;
    GuildAddKeeps(s, ref);
    if k in s.guildMap { CachedAgrees(s, k); }
    if s.guilds[ref].id in s.guildMap { CachedAgrees(s, s.guilds[ref].id); }
  }

  /** The listed guilds other than one. */
  function OthersListed(s: State, list: seq<Ref>, id: Id): seq<Ref>
    requires forall i :: 0 <= i < |list| ==> list[i] in s.guilds
  {
    if list == [] then []
    else if s.guilds[list[0]].id == id then OthersListed(s, list[1..], id)
    else [list[0]] + OthersListed(s, list[1..], id)
  }

  lemma {:induction false} WithoutFirstGuild(s: State, list: seq<Ref>, id: Id, i: nat)
    requires (forall j :: 0 <= j < |list| ==> list[j] in s.guilds) && i < |list| && s.guilds[list[i]].id == id
    ensures forall j :: 0 <= j < |Without(list, i)| ==> Without(list, i)[j] in s.guilds
    ensures OthersListed(s, Without(list, i), id) == OthersListed(s, list, id)
  {
    if i == 0 {
      assert Without(list, 0) == list[1..];
    } else {
      WithoutFirstGuild(s, list[1..], id, i - 1);
      assert Without(list, i)[0] == list[0] && Without(list, i)[1..] == Without(list[1..], i - 1);
    }
  }

  /** The first listed guild of an id, if one is. */
  lemma {:induction false} FirstGuildFinds(s: State, id: Id, from: nat)
    requires Closed(s) && from <= |s.guildList|
    ensures from <= FirstGuild(s, id, from) <= |s.guildList|
    ensures FirstGuild(s, id, from) < |s.guildList| ==> s.guilds[s.guildList[FirstGuild(s, id, from)]].id == id
    ensures forall i :: from <= i < FirstGuild(s, id, from) ==> s.guilds[s.guildList[i]].id != id
    decreases |s.guildList| - from
  {
    if from < |s.guildList| && s.guilds[s.guildList[from]].id != id { FirstGuildFinds(s, id, from + 1); }
  }

  ghost predicate IsListed(s: State, id: Id)
    requires Closed(s)
  {
    exists i :: 0 <= i < |s.guildList| && s.guilds[s.guildList[i]].id == id
  }

  /** A removed guild is found no more, with any of its members, and is listed once less; others are
      found and listed as before. Only a cached guild can be removed. */
  lemma RemovedGuildIsGone(s: State, id: Id, userID: Id, k: Id)
    requires Sound(s) && k != id
    ensures var (s', error) := GuildRemove(s, id);
            && Sound(s') && (error.None? <==> id in s.guildMap) && (error.Some? ==> s' == s)
            && GuildFound(s', id) == None && Lookup(s', id, userID) == None
            && GuildFound(s', k) == GuildFound(s, k) && Lookup(s', k, userID) == Lookup(s, k, userID)
            && OthersListed(s', s'.guildList, id) == OthersListed(s, s.guildList, id)
            && (error.None? ==> |s'.guildList| == if IsListed(s, id) then |s.guildList| - 1 else |s.guildList|)
  {
    hide Indexed, Without, OthersListed;
    GuildRemoveKeeps(s, id);
    var s' := GuildRemove(s, id).0;
    if id in s.guildMap {
      FirstGuildFinds(s, id, 0);
      WithoutSize(s.guildList, FirstGuild(s, id, 0));
      if IsListed(s, id) { WithoutFirstGuild(s, s.guildList, id, FirstGuild(s, id, 0)); }
      SameGuildsList(s, s', s'.guildList, id);
    } else {
      UncachedHasNone(s, id, userID);
    }
  }

  lemma WithoutSize(list: seq<Ref>, i: nat)
    ensures i < |list| ==> |Without(list, i)| == |list| - 1
    ensures i >= |list| ==> Without(list, i) == list
  {
  }

  lemma UncachedHasNone(s: State, id: Id, userID: Id)
    requires Sound(s) && id !in s.guildMap
    ensures Lookup(s, id, userID) == None
  {
  }

  lemma {:induction false} SameGuildsList(s: State, s': State, list: seq<Ref>, id: Id)
    requires s'.guilds == s.guilds && forall i :: 0 <= i < |list| ==> list[i] in s.guilds
    ensures OthersListed(s', list, id) == OthersListed(s, list, id)
  {
    if list != [] { SameGuildsList(s, s', list[1..], id); }
  }

  /** A member is added exactly if its guild is cached. No other guild gains or loses a member, and in
      none is another user's record touched. */
  lemma AddedMemberLeavesOthers(s: State, ref: Ref, k: Id, userID: Id)
    requires Sound(s) && ref in s.members && k != s.members[ref].guildID
    ensures var member, (s', error) := s.members[ref], MemberAdd(s, ref);
            && Sound(s') && (error.None? <==> member.guildID in s.guildMap) && (error.Some? ==> s' == s)
            && (userID != member.userID ==> Lookup(s', k, userID) == Lookup(s, k, userID))
            && (Lookup(s', k, userID).Some? <==> Lookup(s, k, userID).Some?)
  {
    hide Sound;
    MemberAddKeeps(s, ref);
    UncachedRefuses(s, ref);
    if s.members[ref].guildID in s.guildMap {
      CachedAgrees(s, s.members[ref].guildID);
      AddedElsewhere(s, ref, k, userID);
    }
  }

  lemma SoundIsClosed(s: State)
    requires Sound(s)
    ensures Closed(s)
  {
  }

  lemma UncachedRefuses(s: State, ref: Ref)
    requires Sound(s) && ref in s.members
    ensures MemberAdd(s, ref).1.None? <==> s.members[ref].guildID in s.guildMap
    ensures MemberAdd(s, ref).1.Some? ==> MemberAdd(s, ref).0 == s
  {
    hide Indexed;
    if s.members[ref].guildID in s.guildMap { CachedAgrees(s, s.members[ref].guildID); }
  }

  lemma AddedElsewhere(s: State, ref: Ref, k: Id, userID: Id)
    requires Sound(s) && ref in s.members && k != s.members[ref].guildID && Sound(MemberAdd(s, ref).0)
    requires s.members[ref].guildID in s.guildMap && s.members[ref].guildID in s.memberMap
    ensures var member, s' := s.members[ref], MemberAdd(s, ref).0;
            && (userID != member.userID ==> Lookup(s', k, userID) == Lookup(s, k, userID))
            && (Lookup(s', k, userID).Some? <==> Lookup(s, k, userID).Some?)
  {
    if k in s.memberMap && userID in s.memberMap[k] { IndexedUser(s, k, userID); }
    SoundIsClosed(s);
    SoundIsClosed(MemberAdd(s, ref).0);
    hide Sound, Closed, List;
    if s.members[ref].userID in s.memberMap[s.members[ref].guildID] {
      IndexedUser(s, s.members[ref].guildID, s.members[ref].userID);
    }
  }

  lemma IndexedUser(s: State, k: Id, userID: Id)
    requires Sound(s) && k in s.memberMap && userID in s.memberMap[k]
    ensures s.memberMap[k][userID] in s.members && s.members[s.memberMap[k][userID]].userID == userID
  {
    assert Agrees(s, k);
  }

  /** Adding a member touches neither the guild's count nor the list's order: a new one is appended. */
  lemma AddedMemberIsAppended(s: State, ref: Ref)
    requires Sound(s) && ref in s.members && s.members[ref].guildID in s.guildMap
    ensures var member, s' := s.members[ref], MemberAdd(s, ref).0;
            var before := GuildFound(s, member.guildID).value;
            && Closed(s') && s'.guildList == s.guildList && s'.guildMap == s.guildMap
            && GuildFound(s', member.guildID)
               == Some(if Lookup(s, member.guildID, member.userID).Some? then before
                       else before.(members := Some(List(before) + [ref])))
  {
    MemberAddKeeps(s, ref);
    assert Agrees(s, s.members[ref].guildID);
  }

  /** Removing a member takes one entry from its guild's list and leaves the rest of it in order, and
      leaves everything else; only a cached member can be removed. */
  lemma RemovedMemberLeavesRest(s: State, guildID: Id, userID: Id, k: Id, other: Id)
    requires Sound(s) && k != guildID
    ensures var (s', error) := MemberRemove(s, guildID, userID);
            && Sound(s') && (error.None? <==> Lookup(s, guildID, userID).Some?) && (error.Some? ==> s' == s)
            && s'.guildList == s.guildList && s'.guildMap == s.guildMap && s'.members == s.members
            && Lookup(s', k, other) == Lookup(s, k, other) && GuildFound(s', k) == GuildFound(s, k)
            && (error.None? ==>
                  var before, after := GuildFound(s, guildID).value, GuildFound(s', guildID).value;
                  && after == before.(members := after.members)
                  && exists i :: 0 <= i < |List(before)| && List(after) == List(before)[..i] + List(before)[i + 1..])
  {
    hide Indexed;
    MemberRemoveKeeps(s, guildID, userID);
    if k in s.guildMap { CachedAgrees(s, k); }
    if guildID in s.guildMap {
      CachedAgrees(s, guildID);
      if userID in s.memberMap[guildID] {
        CachedIsListed(s, guildID, userID);
        var list := List(s.guilds[s.guildMap[guildID]]);
        var i := FirstOf(s.members, list, userID, 0);
        assert Without(list, i) == list[..i] + list[i + 1..];
      }
    }
  }

  /** Where the last guild of an id is in a ready event, up to a place. */
  ghost predicate LastOf(s: State, ready: seq<Ref>, n: nat, i: nat)
    requires n <= |ready| && forall j :: 0 <= j < |ready| ==> ready[j] in s.guilds
  {
    i < n && forall j :: i < j < n ==> s.guilds[ready[j]].id != s.guilds[ready[i]].id
  }

  lemma {:induction false} EnteredFinds(s: State, ready: seq<Ref>, n: nat, i: nat)
    requires Closed(s) && n <= |ready| && forall j :: 0 <= j < |ready| ==> ready[j] in s.guilds
    requires LastOf(s, ready, n, i)
    ensures var id, s' := s.guilds[ready[i]].id, Entered(s, ready, n);
            && id in s'.guildMap && s'.guildMap[id] == ready[i]
            && id in s'.memberMap && s'.memberMap[id] == IndexOf(s.members, List(s.guilds[ready[i]]))
    decreases n
  {
    if i < n - 1 { EnteredFinds(s, ready, n - 1, i); }
  }

  lemma {:induction false} EnteredLeaves(s: State, ready: seq<Ref>, n: nat, k: Id)
    requires Closed(s) && n <= |ready| && forall j :: 0 <= j < |ready| ==> ready[j] in s.guilds
    requires forall j :: 0 <= j < n ==> s.guilds[ready[j]].id != k
    ensures var s' := Entered(s, ready, n);
            && (k in s'.guildMap <==> k in s.guildMap) && (k in s.guildMap ==> s'.guildMap[k] == s.guildMap[k])
            && (k in s'.memberMap <==> k in s.memberMap) && (k in s.memberMap ==> s'.memberMap[k] == s.memberMap[k])
            && s'.guildList == s.guildList
    decreases n
  {
    if n > 0 { EnteredLeaves(s, ready, n - 1, k); }
  }

  lemma {:induction false} EnteredList(s: State, ready: seq<Ref>, n: nat)
    requires Closed(s) && n <= |ready| && forall j :: 0 <= j < |ready| ==> ready[j] in s.guilds
    ensures Entered(s, ready, n).guildList == s.guildList
  {
    if n > 0 { EnteredList(s, ready, n - 1); }
  }

  /** After a ready event its guilds are the list, and each is found as its last entry there with the
      members listed in it; other cached guilds are still found. Without state nothing is listed, and
      everything is found as before. */
  lemma ReadyIsFound(s: State, ready: seq<Ref>, i: nat, k: Id, userID: Id)
    requires Sound(s)
    requires forall j :: 0 <= j < |ready| ==> ready[j] in s.guilds && UniqueUsers(s.members, List(s.guilds[ready[j]]))
    requires LastOf(s, ready, |ready|, i) && forall j :: 0 <= j < |ready| ==> s.guilds[ready[j]].id != k
    ensures var s', guild := OnReady(s, ready, true), s.guilds[ready[i]];
            && Sound(s') && s'.guildList == ready && GuildFound(s', guild.id) == Some(guild)
            && ListedAs(s.members, List(guild), userID, Lookup(s', guild.id, userID))
            && GuildFound(s', k) == GuildFound(s, k) && Lookup(s', k, userID) == Lookup(s, k, userID)
  {
    hide Indexed, UniqueUsers, IndexOf, Entered;
    OnReadyKeeps(s, ready, true);
    var listed := s.(guildList := ready);
    EnteredFinds(listed, ready, |ready|, i);
    EnteredLeaves(listed, ready, |ready|, k);
    EnteredList(listed, ready, |ready|);
    LookupIsListed(OnReady(s, ready, true), s.guilds[ready[i]].id, userID);
  }

  lemma DisabledReadyLeaves(s: State, ready: seq<Ref>, k: Id, userID: Id)
    requires Sound(s)
    requires forall j :: 0 <= j < |ready| ==> ready[j] in s.guilds && UniqueUsers(s.members, List(s.guilds[ready[j]]))
    ensures var s' := OnReady(s, ready, false);
            && Closed(s') && s'.guildList == []
            && GuildFound(s', k) == GuildFound(s, k) && Lookup(s', k, userID) == Lookup(s, k, userID)
  {
    OnReadyKeeps(s, ready, false);
  }
}
