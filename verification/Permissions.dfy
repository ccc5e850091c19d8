/** The permissions of a guild member in a channel, as bit masks and bit by bit. */
module Permissions {
  import opened Prelude

  /** A permission mask is a 64-bit word, represented by the set of its bits: `|` is union and
      `& ^` is difference. */
  type Bits = set<Bit>

  type Bit = b: nat | b < 64

  const ADMINISTRATOR: Bit := 3

  /** PermissionAll has the first 53 bits except one. */
  const ALL: Bits := set b: Bit | b < 53 && b != 47

  /** PermissionAllChannel has the bits of these that apply to channels. */
  const ALL_CHANNEL: Bits := set b: Bit | b in ALL && b !in {1, 2, 3, 5, 7, 19, 26, 27, 29, 30, 33, 40, 41, 43, 44}

  datatype Role = Role(id: Id, permissions: Bits)

  datatype Kind = OfRole | OfMember

  datatype Overwrite = Overwrite(id: Id, kind: Kind, deny: Bits, allow: Bits)

  datatype Guild = Guild(id: Id, ownerID: Id, roles: seq<Role>)

  // ---- the computation

  /** The permissions of the first role of the guild's own id. */
  function Everyone(guildID: Id, roles: seq<Role>): Bits
  {
    if roles == [] then {}
    else if roles[0].id == guildID then roles[0].permissions
    else Everyone(guildID, roles[1..])
  }

  /** The union of the permissions of the roles the member has. */
  function Union(all: seq<Role>, roles: seq<Id>): Bits
  {
    if all == [] then {}
    else
      var last := all[|all| - 1];
      Union(all[..|all| - 1], roles) + (if last.id in roles then last.permissions else {})
  }

  function WithAdministrator(p: Bits, granted: Bits): Bits
  {
    if ADMINISTRATOR in p then p + granted else p
  }

  function Apply(p: Bits, deny: Bits, allow: Bits): Bits
  {
    (p - deny) + allow
  }

  predicate ForEveryone(o: Overwrite, guildID: Id)
  {
    o.id == guildID
  }

  predicate ForRoles(o: Overwrite, roles: seq<Id>)
  {
    o.kind.OfRole? && o.id in roles
  }

  predicate ForMember(o: Overwrite, userID: Id)
  {
    o.kind.OfMember? && o.id == userID
  }

  /** Applies the first overwrite of the guild's own id. */
  function ApplyEveryone(p: Bits, overwrites: seq<Overwrite>, guildID: Id): Bits
  {
    if overwrites == [] then p
    else if ForEveryone(overwrites[0], guildID) then Apply(p, overwrites[0].deny, overwrites[0].allow)
    else ApplyEveryone(p, overwrites[1..], guildID)
  }

  function Denies(overwrites: seq<Overwrite>, roles: seq<Id>): Bits
  {
    if overwrites == [] then {}
    else
      var last := overwrites[|overwrites| - 1];
      Denies(overwrites[..|overwrites| - 1], roles) + (if ForRoles(last, roles) then last.deny else {})
  }

  function Allows(overwrites: seq<Overwrite>, roles: seq<Id>): Bits
  {
    if overwrites == [] then {}
    else
      var last := overwrites[|overwrites| - 1];
      Allows(overwrites[..|overwrites| - 1], roles) + (if ForRoles(last, roles) then last.allow else {})
  }

  /** Applies the first overwrite for the member. */
  function ApplyMember(p: Bits, overwrites: seq<Overwrite>, userID: Id): Bits
  {
    if overwrites == [] then p
    else if ForMember(overwrites[0], userID) then Apply(p, overwrites[0].deny, overwrites[0].allow)
    else ApplyMember(p, overwrites[1..], userID)
  }

  function InGuild(guild: Guild, roles: seq<Id>): Bits
  {
    WithAdministrator(Everyone(guild.id, guild.roles) + Union(guild.roles, roles), ALL)
  }

  function Computed(guild: Guild, overwrites: seq<Overwrite>, userID: Id, roles: seq<Id>): Bits
  {
    if userID == guild.ownerID then ALL
    else
      var p := ApplyEveryone(InGuild(guild, roles), overwrites, guild.id);
      var q := Apply(p, Denies(overwrites, roles), Allows(overwrites, roles));
      WithAdministrator(ApplyMember(q, overwrites, userID), ALL_CHANNEL)
  }

  method RolePermissions(guild: Guild, roles: seq<Id>) returns (p: Bits)
    ensures p == Everyone(guild.id, guild.roles) + Union(guild.roles, roles)
  {
    p := {};
    var i := 0;
    while i < |guild.roles|
      invariant 0 <= i <= |guild.roles| && p == {}
      invariant Everyone(guild.id, guild.roles) == Everyone(guild.id, guild.roles[i..])
    {
      assert guild.roles[i..][1..] == guild.roles[i + 1..];
      if guild.roles[i].id == guild.id {
        p := p + guild.roles[i].permissions;
        break;
      }
      i := i + 1;
    }
    assert p == Everyone(guild.id, guild.roles);
    ghost var everyone := p;
    i := 0;
    while i < |guild.roles|
      invariant 0 <= i <= |guild.roles|
      invariant p == everyone + Union(guild.roles[..i], roles)
    {
      var role := guild.roles[i];
      ghost var before := p;
      var j := 0;
      while j < |roles|
        invariant 0 <= j <= |roles| && p == before && role.id !in roles[..j]
      {
        if role.id == roles[j] {
          p := p + role.permissions;
          break;
        }
        j := j + 1;
      }
      assert guild.roles[..i + 1][..i] == guild.roles[..i];
      i := i + 1;
    }
    assert guild.roles[..i] == guild.roles;
  }

  method MemberPermissions(guild: Guild, overwrites: seq<Overwrite>, userID: Id, roles: seq<Id>) returns (p: Bits)
    ensures p == Computed(guild, overwrites, userID, roles)
  {
    if userID == guild.ownerID {
      return ALL;
    }
    p := RolePermissions(guild, roles);
    if ADMINISTRATOR in p {
      p := p + ALL;
    }
    p := EveryoneOverwrite(p, overwrites, guild.id);
    p := RoleOverwrites(p, overwrites, roles);
    p := MemberOverwrite(p, overwrites, userID);
    if ADMINISTRATOR in p {
      p := p + ALL_CHANNEL;
    }
  }

  method EveryoneOverwrite(before: Bits, overwrites: seq<Overwrite>, guildID: Id) returns (p: Bits)
    ensures p == ApplyEveryone(before, overwrites, guildID)
  {
    p := before;
    var i := 0;
    while i < |overwrites|
      invariant 0 <= i <= |overwrites| && p == before
      invariant ApplyEveryone(before, overwrites, guildID) == ApplyEveryone(before, overwrites[i..], guildID)
    {
      var o := overwrites[i];
      assert overwrites[i..][1..] == overwrites[i + 1..];
      if guildID == o.id {
        p := p - o.deny;
        p := p + o.allow;
        break;
      }
      i := i + 1;
    }
  }

  method RoleOverwrites(before: Bits, overwrites: seq<Overwrite>, roles: seq<Id>) returns (p: Bits)
    ensures p == Apply(before, Denies(overwrites, roles), Allows(overwrites, roles))
  {
    var denies: Bits, allows: Bits := {}, {};
    var i := 0;
    while i < |overwrites|
      invariant 0 <= i <= |overwrites|
      invariant denies == Denies(overwrites[..i], roles) && allows == Allows(overwrites[..i], roles)
    {
      var o := overwrites[i];
      ghost var denied, allowed := denies, allows;
      var j := 0;
      while j < |roles|
        invariant 0 <= j <= |roles| && denies == denied && allows == allowed
        invariant o.kind.OfRole? ==> o.id !in roles[..j]
      {
        if o.kind.OfRole? && roles[j] == o.id {
          denies := denies + o.deny;
          allows := allows + o.allow;
          break;
        }
        j := j + 1;
      }
      assert overwrites[..i + 1][..i] == overwrites[..i];
      i := i + 1;
    }
    assert overwrites[..i] == overwrites;
    p := before - denies;
    p := p + allows;
  }

  method MemberOverwrite(before: Bits, overwrites: seq<Overwrite>, userID: Id) returns (p: Bits)
    ensures p == ApplyMember(before, overwrites, userID)
  {
    p := before;
    var i := 0;
    while i < |overwrites|
      invariant 0 <= i <= |overwrites| && p == before
      invariant ApplyMember(before, overwrites, userID) == ApplyMember(before, overwrites[i..], userID)
    {
      var o := overwrites[i];
      assert overwrites[i..][1..] == overwrites[i + 1..];
      if o.kind.OfMember? && o.id == userID {
        p := p - o.deny;
        p := p + o.allow;
        break;
      }
      i := i + 1;
    }
  }


  // ---- the rule for one permission

  ghost predicate UniqueRoles(roles: seq<Role>)
  {
    forall i, j :: 0 <= i < j < |roles| ==> roles[i].id != roles[j].id
  }

  ghost predicate UniqueOverwrites(overwrites: seq<Overwrite>)
  {
    forall i, j :: 0 <= i < j < |overwrites| ==> overwrites[i].id != overwrites[j].id
  }

  /** Some role that applies to the member grants the permission. */
  ghost predicate Granted(guildID: Id, all: set<Role>, roles: set<Id>, b: Bit)
  {
    exists r :: r in all && (r.id == guildID || r.id in roles) && b in r.permissions
  }

  datatype Level = EveryoneLevel(guildID: Id) | RoleLevel(roles: set<Id>) | MemberLevel(userID: Id)

  predicate At(o: Overwrite, level: Level)
  {
    match level
    case EveryoneLevel(guildID) => o.id == guildID
    case RoleLevel(roles) => o.kind.OfRole? && o.id in roles
    case MemberLevel(userID) => o.kind.OfMember? && o.id == userID
  }

  ghost predicate Allowed(overwrites: set<Overwrite>, level: Level, b: Bit)
  {
    exists o :: o in overwrites && At(o, level) && b in o.allow
  }

  ghost predicate Denied(overwrites: set<Overwrite>, level: Level, b: Bit)
  {
    exists o :: o in overwrites && At(o, level) && b in o.deny
  }

  /** What the overwrites of a level say of a permission: allowing beats denying. */
  ghost function Decided(overwrites: set<Overwrite>, level: Level, b: Bit): Option<bool>
  {
    if Allowed(overwrites, level, b) then Some(true)
    else if Denied(overwrites, level, b) then Some(false)
    else None
  }

  /** Whether the member has the permission before the channel's administrators are considered: the
      most specific overwrite level that decides it, and without any the roles. */
  ghost predicate Rule(guildID: Id, all: set<Role>, overwrites: set<Overwrite>, userID: Id, roles: set<Id>, b: Bit)
  {
    var member := Decided(overwrites, MemberLevel(userID), b);
    var role := Decided(overwrites, RoleLevel(roles), b);
    var everyone := Decided(overwrites, EveryoneLevel(guildID), b);
    if member.Some? then member.value
    else if role.Some? then role.value
    else if everyone.Some? then everyone.value
    else Granted(guildID, all, roles, b) || (Granted(guildID, all, roles, ADMINISTRATOR) && b in ALL)
  }

  /** Owners have everything; administrators have every permission of a channel. */
  ghost predicate Permitted(guildID: Id, ownerID: Id, all: set<Role>, overwrites: set<Overwrite>, userID: Id,
                            roles: set<Id>, b: Bit)
  {
    if userID == ownerID then b in ALL
    else
      || Rule(guildID, all, overwrites, userID, roles, b)
      || (Rule(guildID, all, overwrites, userID, roles, ADMINISTRATOR) && b in ALL_CHANNEL)
  }

  function Elements<T(!new)>(s: seq<T>): set<T>
  {
    set x | x in s
  }

  // ---- the computation follows the rule

  lemma {:induction false} UnionBit(all: seq<Role>, roles: seq<Id>, b: Bit)
    ensures b in Union(all, roles) <==> exists r :: r in all && r.id in roles && b in r.permissions
  {
    if all != [] {
      var init, last := all[..|all| - 1], all[|all| - 1];
      UnionBit(init, roles, b);
      assert all == init + [last];
    }
  }

  lemma {:induction false} EveryoneBit(guildID: Id, all: seq<Role>, b: Bit)
    requires UniqueRoles(all)
    ensures b in Everyone(guildID, all) <==> exists r :: r in all && r.id == guildID && b in r.permissions
  {
    if all != [] {
      EveryoneBit(guildID, all[1..], b);
      assert all == [all[0]] + all[1..];
    }
  }

  lemma InGuildBit(guild: Guild, roles: seq<Id>, b: Bit)
    requires UniqueRoles(guild.roles)
    ensures b in Everyone(guild.id, guild.roles) + Union(guild.roles, roles)
            <==> Granted(guild.id, Elements(guild.roles), Elements(roles), b)
  {
    EveryoneBit(guild.id, guild.roles, b);
    UnionBit(guild.roles, roles, b);
  }

  /** What applying the overwrites of a level makes of a permission. */
  ghost predicate Overridden(before: bool, overwrites: seq<Overwrite>, level: Level, b: Bit)
  {
    var d := Decided(Elements(overwrites), level, b);
    if d.Some? then d.value else before
  }

  lemma {:induction false} EveryoneOverwriteBit(p: Bits, overwrites: seq<Overwrite>, guildID: Id, b: Bit)
    requires UniqueOverwrites(overwrites)
    ensures b in ApplyEveryone(p, overwrites, guildID) <==> Overridden(b in p, overwrites, EveryoneLevel(guildID), b)
  {
    if overwrites != [] {
      EveryoneOverwriteBit(p, overwrites[1..], guildID, b);
      assert overwrites == [overwrites[0]] + overwrites[1..];
    }
  }

  lemma {:induction false} MemberOverwriteBit(p: Bits, overwrites: seq<Overwrite>, userID: Id, b: Bit)
    requires UniqueOverwrites(overwrites)
    ensures b in ApplyMember(p, overwrites, userID) <==> Overridden(b in p, overwrites, MemberLevel(userID), b)
  {
    if overwrites != [] {
      MemberOverwriteBit(p, overwrites[1..], userID, b);
      assert overwrites == [overwrites[0]] + overwrites[1..];
    }
  }

  lemma {:induction false} RoleOverwriteBits(overwrites: seq<Overwrite>, roles: seq<Id>, b: Bit)
    ensures b in Denies(overwrites, roles) <==> Denied(Elements(overwrites), RoleLevel(Elements(roles)), b)
    ensures b in Allows(overwrites, roles) <==> Allowed(Elements(overwrites), RoleLevel(Elements(roles)), b)
  {
    if overwrites != [] {
      var init, last := overwrites[..|overwrites| - 1], overwrites[|overwrites| - 1];
      RoleOverwriteBits(init, roles, b);
      assert overwrites == init + [last];
      assert Elements(overwrites) == Elements(init) + {last};
    }
  }

  /** The overwrites together decide a permission by the rule. */
  lemma OverwrittenBit(guild: Guild, overwrites: seq<Overwrite>, userID: Id, roles: seq<Id>, b: Bit)
    requires UniqueRoles(guild.roles) && UniqueOverwrites(overwrites)
    ensures var p := ApplyEveryone(InGuild(guild, roles), overwrites, guild.id);
            var q := Apply(p, Denies(overwrites, roles), Allows(overwrites, roles));
            b in ApplyMember(q, overwrites, userID)
            <==> Rule(guild.id, Elements(guild.roles), Elements(overwrites), userID, Elements(roles), b)
  {
    InGuildBit(guild, roles, b);
    InGuildBit(guild, roles, ADMINISTRATOR);
    var p := ApplyEveryone(InGuild(guild, roles), overwrites, guild.id);
    EveryoneOverwriteBit(InGuild(guild, roles), overwrites, guild.id, b);
    RoleOverwriteBits(overwrites, roles, b);
    MemberOverwriteBit(Apply(p, Denies(overwrites, roles), Allows(overwrites, roles)), overwrites, userID, b);
  }

  /** With unique role and overwrite ids a permission is computed exactly if the rule gives it. */
  lemma ComputedByRule(guild: Guild, overwrites: seq<Overwrite>, userID: Id, roles: seq<Id>, b: Bit)
    requires UniqueRoles(guild.roles) && UniqueOverwrites(overwrites)
    ensures b in Computed(guild, overwrites, userID, roles) <==>
              Permitted(guild.id, guild.ownerID, Elements(guild.roles), Elements(overwrites), userID, Elements(roles),
                        b)
  {
    OverwrittenBit(guild, overwrites, userID, roles, b);
    OverwrittenBit(guild, overwrites, userID, roles, ADMINISTRATOR);
  }

  /** So the order in which roles and overwrites are listed does not matter. */
  lemma OrderDoesNotMatter(guild: Guild, guild': Guild, overwrites: seq<Overwrite>, overwrites': seq<Overwrite>,
                           userID: Id, roles: seq<Id>, roles': seq<Id>)
    requires UniqueRoles(guild.roles) && UniqueRoles(guild'.roles)
    requires UniqueOverwrites(overwrites) && UniqueOverwrites(overwrites')
    requires guild'.id == guild.id && guild'.ownerID == guild.ownerID && Elements(guild'.roles) == Elements(guild.roles)
    requires Elements(overwrites') == Elements(overwrites) && Elements(roles') == Elements(roles)
    ensures Computed(guild', overwrites', userID, roles') == Computed(guild, overwrites, userID, roles)
  {
    forall b: Bit
      ensures b in Computed(guild', overwrites', userID, roles') <==> b in Computed(guild, overwrites, userID, roles)
    {
      ComputedByRule(guild, overwrites, userID, roles, b);
      ComputedByRule(guild', overwrites', userID, roles', b);
    }
  }

  /** A member without roles under two overwrites of his own. */
  lemma FirstOverwriteWins(guild: Guild, userID: Id, first: Overwrite, second: Overwrite)
    requires userID != guild.ownerID && userID != guild.id && guild.roles == []
    requires first.kind.OfMember? && first.id == userID == second.id && second.kind.OfMember?
    requires ADMINISTRATOR !in first.allow
    ensures Computed(guild, [first, second], userID, []) == first.allow
  {
    var none: Bits, both := {}, [first, second];
    assert both[1..] == [second] && [second][1..] == [] && both[..1] == [first] && [first][..0] == [];
    assert InGuild(guild, []) == none;
    assert ApplyEveryone(none, [second], guild.id) == none;
    assert ApplyEveryone(none, both, guild.id) == none;
    assert first.id !in [];
    assert Denies([first], []) == none;
    assert [first][..|[first]| - 1] == [];
    assert Allows([first], []) == none;
    assert Denies(both, []) == none && Allows(both, []) == none;
    assert Apply(none, none, none) == none;
  }

  /** Two overwrites of the same member do make the order matter: only the first is applied. */
  lemma DuplicatesMakeOrderMatter(guild: Guild, userID: Id)
    requires userID != guild.ownerID && userID != guild.id && guild.roles == []
    ensures var allow, deny := Overwrite(userID, OfMember, {}, {10}), Overwrite(userID, OfMember, {10}, {});
            Computed(guild, [allow, deny], userID, []) != Computed(guild, [deny, allow], userID, [])
  {
    var allow, deny := Overwrite(userID, OfMember, {}, {10}), Overwrite(userID, OfMember, {10}, {});
    FirstOverwriteWins(guild, userID, allow, deny);
    FirstOverwriteWins(guild, userID, deny, allow);
    assert 10 in allow.allow && 10 !in deny.allow;
  }
}
