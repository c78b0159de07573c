/** The membership cache: which address holds which permissions in which group. */
module Membership {
  import opened Wrappers
  import opened Permissions

  datatype MembershipError = MemberNotFound(groupId: string, address: string)

  type Members = map<string, map<string, set<Permission>>>

  /** `None` when the address is not a member at all. */
  function PermsOf(ms: Members, group: string, address: string): Option<set<Permission>> {
    if group in ms && address in ms[group] then Some(ms[group][address]) else None
  }

  function Holds(ms: Members, group: string, address: string, p: Permission): bool {
    var perms := PermsOf(ms, group, address);
    perms.Some? && p in perms.value
  }

  function GroupOf(ms: Members, group: string): map<string, set<Permission>> {
    if group in ms then ms[group] else map[]
  }

  function WithMember(ms: Members, group: string, address: string, perms: set<Permission>): Members {
    ms[group := GroupOf(ms, group)[address := perms]]
  }

  /** An emptied group stays in the map. */
  function WithoutMember(ms: Members, group: string, address: string): Members {
    if group in ms then ms[group := ms[group] - {address}] else ms
  }

  function Granted(ms: Members, group: string, address: string, ps: set<Permission>): Result<Members, MembershipError> {
    match PermsOf(ms, group, address)
    case None => Err(MemberNotFound(group, address))
    case Some(perms) => Ok(WithMember(ms, group, address, perms + ps))
  }

  function Revoked(ms: Members, group: string, address: string, ps: set<Permission>): Result<Members, MembershipError> {
    match PermsOf(ms, group, address)
    case None => Err(MemberNotFound(group, address))
    case Some(perms) => Ok(WithMember(ms, group, address, perms - ps))
  }

  function SetOf(ps: seq<Permission>): set<Permission> {
    set p | p in ps
  }

  /** Later entries for the same address win. */
  function GroupFrom(entries: seq<(string, seq<Permission>)>): map<string, set<Permission>> {
    if entries == [] then map[]
    else
      var n := |entries| - 1;
      GroupFrom(entries[..n])[entries[n].0 := SetOf(entries[n].1)]
  }

  /** Entry `k` is the last one for its address. */
  ghost predicate LastFor(entries: seq<(string, seq<Permission>)>, k: nat)
    requires k < |entries|
  {
    forall j :: k < j < |entries| ==> entries[j].0 != entries[k].0
  }

  ghost predicate Named(entries: seq<(string, seq<Permission>)>, address: string) {
    exists k :: 0 <= k < |entries| && entries[k].0 == address
  }

  /** A group set as a whole has exactly the addresses of its entries. */
  lemma {:induction false} AddressesFromEntries(entries: seq<(string, seq<Permission>)>, address: string)
    ensures address in GroupFrom(entries) <==> Named(entries, address)
  {
    if entries != [] {
      var n := |entries| - 1;
      AddressesFromEntries(entries[..n], address);
      if Named(entries[..n], address) {
        var k :| 0 <= k < n && entries[..n][k].0 == address;
        assert entries[k].0 == address;
      }
      if Named(entries, address) && entries[n].0 != address {
        var k :| 0 <= k < |entries| && entries[k].0 == address;
        assert entries[..n][k].0 == address;
      }
    }
  }

  /** Each of them has the permissions of its last entry. */
  lemma {:induction false} LastEntryCounts(entries: seq<(string, seq<Permission>)>, k: nat, p: Permission)
    requires k < |entries| && LastFor(entries, k)
    ensures entries[k].0 in GroupFrom(entries)
    ensures p in GroupFrom(entries)[entries[k].0] <==> p in entries[k].1
  {
    var n := |entries| - 1;
    if k < n {
      assert entries[..n][k] == entries[k];
      LastEntryCounts(entries[..n], k, p);
    }
  }

  class InMemoryMembershipStore {
    var members: Members

    constructor ()
      ensures members == map[]
    {
      members := map[];
    }

    method HasPermission(groupId: string, address: string, permission: Permission) returns (result: bool)
      ensures result == Holds(members, groupId, address, permission)
    {
      result := false;
      if groupId in members {
        var group := members[groupId];
        if address in group {
          result := permission in group[address];
        }
      }
    }

    method IsMember(groupId: string, address: string) returns (result: bool)
      ensures result <==> exists p :: Holds(members, groupId, address, p)
    {
      result := false;
      if groupId in members && address in members[groupId] {
        var perms := members[groupId][address];
        result := perms != {};
        if result {
          ghost var p :| p in perms;
          assert Holds(members, groupId, address, p);
        }
      }
    }

    /** Each permission once, in no particular order. */
    method GetPermissions(groupId: string, address: string) returns (permissions: seq<Permission>)
      ensures forall p :: p in permissions <==> Holds(members, groupId, address, p)
      ensures forall i, j :: 0 <= i < j < |permissions| ==> permissions[i] != permissions[j]
    {
      permissions := [];
      if groupId in members && address in members[groupId] {
        var perms := members[groupId][address];
        var remaining := perms;
        while remaining != {}
          invariant remaining <= perms
          invariant forall p :: p in permissions <==> p in perms && p !in remaining
          invariant forall i, j :: 0 <= i < j < |permissions| ==> permissions[i] != permissions[j]
          decreases |remaining|
        {
          var p :| p in remaining;
          permissions := permissions + [p];
          remaining := remaining - {p};
        }
      }
    }

    method GrantPermissions(groupId: string, address: string, permissions: seq<Permission>)
      returns (r: Result<(), MembershipError>)
      modifies this
      ensures match Granted(old(members), groupId, address, SetOf(permissions))
              case Ok(ms) => members == ms && r == Ok(())
              case Err(e) => members == old(members) && r == Err(e)
    {
      if groupId !in members || address !in members[groupId] {
        return Err(MemberNotFound(groupId, address));
      }
      var perms := members[groupId][address];
      for i := 0 to |permissions|
        invariant perms == members[groupId][address] + SetOf(permissions[..i])
        invariant members == old(members)
      {
        perms := perms + {permissions[i]};
      }
      assert permissions[..|permissions|] == permissions;
      members := members[groupId := members[groupId][address := perms]];
      r := Ok(());
    }

    method RevokePermissions(groupId: string, address: string, permissions: seq<Permission>)
      returns (r: Result<(), MembershipError>)
      modifies this
      ensures match Revoked(old(members), groupId, address, SetOf(permissions))
              case Ok(ms) => members == ms && r == Ok(())
              case Err(e) => members == old(members) && r == Err(e)
    {
      if groupId !in members || address !in members[groupId] {
        return Err(MemberNotFound(groupId, address));
      }
      var perms := members[groupId][address];
      for i := 0 to |permissions|
        invariant perms == members[groupId][address] - SetOf(permissions[..i])
        invariant members == old(members)
      {
        perms := perms - {permissions[i]};
      }
      assert permissions[..|permissions|] == permissions;
      members := members[groupId := members[groupId][address := perms]];
      r := Ok(());
    }

    method AddMember(groupId: string, address: string, initial: seq<Permission>)
      modifies this
      ensures members == WithMember(old(members), groupId, address, SetOf(initial))
    {
      var group := if groupId in members then members[groupId] else map[];
      members := members[groupId := group[address := SetOf(initial)]];
    }

    method RemoveMember(groupId: string, address: string)
      modifies this
      ensures members == WithoutMember(old(members), groupId, address)
    {
      if groupId in members {
        members := members[groupId := members[groupId] - {address}];
      }
    }

    method SetGroupMembers(groupId: string, entries: seq<(string, seq<Permission>)>)
      modifies this
      ensures members == old(members)[groupId := GroupFrom(entries)]
    {
      var group: map<string, set<Permission>> := map[];
      for i := 0 to |entries|
        invariant group == GroupFrom(entries[..i])
        invariant members == old(members)
      {
        assert entries[..i + 1][..i] == entries[..i];
        group := group[entries[i].0 := SetOf(entries[i].1)];
      }
      assert entries[..|entries|] == entries;
      members := members[groupId := group];
    }
  }
}
