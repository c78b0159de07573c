/** The membership cache as a question about history. */
module MembershipHistory {
  import opened Wrappers
  import opened Permissions
  import opened Membership

  datatype GroupsEvent =
    | MemberAdded(group: string, member: string)
    | MemberRemoved(group: string, member: string)
    | PermissionsGranted(group: string, member: string, permissions: seq<Permission>)
    | PermissionsRevoked(group: string, member: string, permissions: seq<Permission>)

  /** A grant or revocation for an unknown member is only logged. */
  function ApplyEvent(ms: Members, e: GroupsEvent): Members {
    match e
    case MemberAdded(g, a) => WithMember(ms, g, a, {})
    case MemberRemoved(g, a) => WithoutMember(ms, g, a)
    case PermissionsGranted(g, a, ps) => OrElse(Granted(ms, g, a, SetOf(ps)), ms)
    case PermissionsRevoked(g, a, ps) => OrElse(Revoked(ms, g, a, SetOf(ps)), ms)
  }

  function ApplyEvents(ms: Members, es: seq<GroupsEvent>): Members {
    if es == [] then ms else ApplyEvent(ApplyEvents(ms, es[..|es| - 1]), es[|es| - 1])
  }

  lemma {:induction false} ApplyConcat(ms: Members, es: seq<GroupsEvent>, fs: seq<GroupsEvent>)
    ensures ApplyEvents(ms, es + fs) == ApplyEvents(ApplyEvents(ms, es), fs)
  {
    if fs == [] {
      assert es + fs == es;
    } else {
      var n := |fs| - 1;
      assert (es + fs)[..|es| + n] == es + fs[..n];
      ApplyConcat(ms, es, fs[..n]);
    }
  }

  // ---- One member of one group ----

  predicate About(e: GroupsEvent, group: string, address: string) {
    e.group == group && e.member == address
  }

  function LocalStep(perms: Option<set<Permission>>, e: GroupsEvent): Option<set<Permission>> {
    match e
    case MemberAdded(_, _) => Some({})
    case MemberRemoved(_, _) => None
    case PermissionsGranted(_, _, ps) => if perms.Some? then Some(perms.value + SetOf(ps)) else None
    case PermissionsRevoked(_, _, ps) => if perms.Some? then Some(perms.value - SetOf(ps)) else None
  }

  lemma StepIsLocal(ms: Members, e: GroupsEvent, group: string, address: string)
    ensures PermsOf(ApplyEvent(ms, e), group, address)
            == if About(e, group, address) then LocalStep(PermsOf(ms, group, address), e)
               else PermsOf(ms, group, address)
  {
  }

  /** The events about one member of one group, in order. */
  function Project(es: seq<GroupsEvent>, group: string, address: string): seq<GroupsEvent> {
    if es == [] then []
    else
      var init, e := Project(es[..|es| - 1], group, address), es[|es| - 1];
      if About(e, group, address) then init + [e] else init
  }

  function LocalFold(es: seq<GroupsEvent>): Option<set<Permission>> {
    if es == [] then None else LocalStep(LocalFold(es[..|es| - 1]), es[|es| - 1])
  }

  lemma {:induction false} FoldIsLocal(es: seq<GroupsEvent>, group: string, address: string)
    ensures PermsOf(ApplyEvents(map[], es), group, address) == LocalFold(Project(es, group, address))
  {
    if es != [] {
      var n := |es| - 1;
      FoldIsLocal(es[..n], group, address);
      StepIsLocal(ApplyEvents(map[], es[..n]), es[n], group, address);
      var init := Project(es[..n], group, address);
      assert (init + [es[n]])[..|init|] == init;
    }
  }

  // ---- The history predicate ----

  /** What an event means for one permission of one member. */
  datatype Word = Enters | Leaves | Gains | Loses | Nothing

  function WordOf(e: GroupsEvent, group: string, address: string, p: Permission): Word {
    if !About(e, group, address) then Nothing
    else
      match e
      case MemberAdded(_, _) => Enters
      case MemberRemoved(_, _) => Leaves
      case PermissionsGranted(_, _, ps) => if p in ps then Gains else Nothing
      case PermissionsRevoked(_, _, ps) => if p in ps then Loses else Nothing
  }

  function WordAt(es: seq<GroupsEvent>, k: nat, group: string, address: string, p: Permission): Word
    requires k < |es|
  {
    WordOf(es[k], group, address, p)
  }

  /** The last add or remove event of this member is the add at `i`. */
  ghost predicate EntersLast(es: seq<GroupsEvent>, i: nat, group: string, address: string, p: Permission) {
    && i < |es| && WordAt(es, i, group, address, p).Enters?
    && forall k :: i < k < |es| ==>
         !WordAt(es, k, group, address, p).Enters? && !WordAt(es, k, group, address, p).Leaves?
  }

  /** The last event naming the permission, from `j` on, is a grant. */
  ghost predicate GainsLast(es: seq<GroupsEvent>, j: nat, group: string, address: string, p: Permission) {
    && j < |es| && WordAt(es, j, group, address, p).Gains?
    && forall k :: j < k < |es| ==> !WordAt(es, k, group, address, p).Loses?
  }

  ghost predicate MemberByHistory(es: seq<GroupsEvent>, group: string, address: string, p: Permission) {
    exists i: nat :: EntersLast(es, i, group, address, p)
  }

  ghost predicate HeldByHistory(es: seq<GroupsEvent>, group: string, address: string, p: Permission) {
    exists i: nat, j: nat :: i < j && EntersLast(es, i, group, address, p) && GainsLast(es, j, group, address, p)
  }

  lemma HistoryStep(es: seq<GroupsEvent>, e: GroupsEvent, group: string, address: string, p: Permission)
    ensures var w, es' := WordOf(e, group, address, p), es + [e];
            && (MemberByHistory(es', group, address, p) <==>
                  w.Enters? || (!w.Leaves? && MemberByHistory(es, group, address, p)))
            && (HeldByHistory(es', group, address, p) <==>
                  && !w.Enters? && !w.Leaves? && !w.Loses?
                  && (HeldByHistory(es, group, address, p) || (w.Gains? && MemberByHistory(es, group, address, p))))
  {
    var w, es', n := WordOf(e, group, address, p), es + [e], |es|;
    assert forall k :: 0 <= k < n ==> WordAt(es', k, group, address, p) == WordAt(es, k, group, address, p);
    assert WordAt(es', n, group, address, p) == w;
    if w.Enters? {
      assert EntersLast(es', n, group, address, p);
    }
    forall i: nat | i < n
      ensures EntersLast(es', i, group, address, p) <==>
          EntersLast(es, i, group, address, p) && !w.Enters? && !w.Leaves?
      ensures GainsLast(es', i, group, address, p) <==> GainsLast(es, i, group, address, p) && !w.Loses?
    {
    }
    HeldStep(es, e, group, address, p);
  }

  lemma HeldStep(es: seq<GroupsEvent>, e: GroupsEvent, group: string, address: string, p: Permission)
    requires var w, es' := WordOf(e, group, address, p), es + [e];
             forall i: nat :: i < |es| ==>
               (EntersLast(es', i, group, address, p) <==>
                   EntersLast(es, i, group, address, p) && !w.Enters? && !w.Leaves?)
               && (GainsLast(es', i, group, address, p) <==> GainsLast(es, i, group, address, p) && !w.Loses?)
    ensures var w, es' := WordOf(e, group, address, p), es + [e];
            HeldByHistory(es', group, address, p) <==>
              && !w.Enters? && !w.Leaves? && !w.Loses?
              && (HeldByHistory(es, group, address, p) || (w.Gains? && MemberByHistory(es, group, address, p)))
  {
    var w, es', n := WordOf(e, group, address, p), es + [e], |es|;
    if HeldByHistory(es', group, address, p) {
      var i: nat, j: nat :| i < j && EntersLast(es', i, group, address, p) && GainsLast(es', j, group, address, p);
      assert EntersLast(es, i, group, address, p);
      assert WordAt(es', n, group, address, p) == w;
    }
    if w.Gains? && MemberByHistory(es, group, address, p) {
      var i: nat :| EntersLast(es, i, group, address, p);
      assert EntersLast(es', i, group, address, p) && GainsLast(es', n, group, address, p);
    }
    if HeldByHistory(es, group, address, p) && !w.Enters? && !w.Leaves? && !w.Loses? {
      var i: nat, j: nat :| i < j && EntersLast(es, i, group, address, p) && GainsLast(es, j, group, address, p);
      assert EntersLast(es', i, group, address, p) && GainsLast(es', j, group, address, p);
    }
  }

  /** After any events, a permission is held exactly when the last add or remove event of that
      group and member is an add, and the last later event naming the permission is a grant. */
  lemma {:induction false} HasPermissionIff(es: seq<GroupsEvent>, group: string, address: string, p: Permission)
    ensures PermsOf(ApplyEvents(map[], es), group, address).Some? <==> MemberByHistory(es, group, address, p)
    ensures Holds(ApplyEvents(map[], es), group, address, p) <==> HeldByHistory(es, group, address, p)
  {
    if es != [] {
      var n := |es| - 1;
      HasPermissionIff(es[..n], group, address, p);
      assert es == es[..n] + [es[n]];
      HistoryStep(es[..n], es[n], group, address, p);
      StepIsLocal(ApplyEvents(map[], es[..n]), es[n], group, address);
    }
  }

  // ---- Locality ----

  lemma {:induction false} GroupKnownIff(es: seq<GroupsEvent>, group: string)
    ensures group in ApplyEvents(map[], es) <==> exists e :: e in es && e.MemberAdded? && e.group == group
  {
    if es != [] {
      var n := |es| - 1;
      GroupKnownIff(es[..n], group);
      assert es == es[..n] + [es[n]];
    }
  }

  lemma {:induction false} ProjectHolds(es: seq<GroupsEvent>, group: string, address: string, e: GroupsEvent)
    ensures e in Project(es, group, address) <==> e in es && About(e, group, address)
  {
    if es != [] {
      var n := |es| - 1;
      ProjectHolds(es[..n], group, address, e);
      assert es == es[..n] + [es[n]];
    }
  }

  ghost predicate SameProjections(es: seq<GroupsEvent>, fs: seq<GroupsEvent>) {
    forall g, a :: Project(es, g, a) == Project(fs, g, a)
  }

  lemma KnownGroupsMatch(es: seq<GroupsEvent>, fs: seq<GroupsEvent>, group: string)
    requires SameProjections(es, fs) && group in ApplyEvents(map[], es)
    ensures group in ApplyEvents(map[], fs)
  {
    GroupKnownIff(es, group);
    GroupKnownIff(fs, group);
    var e :| e in es && e.MemberAdded? && e.group == group;
    ProjectHolds(es, group, e.member, e);
    ProjectHolds(fs, group, e.member, e);
  }

  /** Two histories in which every member of every group has the same events in the same order
      leave identical stores: events about different members commute. */
  lemma EventsAreLocal(es: seq<GroupsEvent>, fs: seq<GroupsEvent>)
    requires SameProjections(es, fs)
    ensures ApplyEvents(map[], es) == ApplyEvents(map[], fs)
  {
    var ms, ns := ApplyEvents(map[], es), ApplyEvents(map[], fs);
    forall g
      ensures g in ms <==> g in ns
    {
      if g in ms {
        KnownGroupsMatch(es, fs, g);
      }
      if g in ns {
        KnownGroupsMatch(fs, es, g);
      }
    }
    forall g | g in ms
      ensures ms[g] == ns[g]
    {
      forall a
        ensures a in ms[g] <==> a in ns[g]
        ensures a in ms[g] ==> ms[g][a] == ns[g][a]
      {
        FoldIsLocal(es, g, a);
        FoldIsLocal(fs, g, a);
        assert PermsOf(ms, g, a) == PermsOf(ns, g, a);
      }
    }
  }
}
