/** What it costs when a reconnect skips checkpoints: the subscription names no start cursor, so
    nothing rules that out. */
module MembershipGaps {
  import opened Wrappers
  import opened Permissions
  import opened Membership
  import opened MembershipHistory
  import opened MembershipSync

  lemma {:induction false} ProjectConcat(es: seq<GroupsEvent>, fs: seq<GroupsEvent>, group: string, address: string)
    ensures Project(es + fs, group, address) == Project(es, group, address) + Project(fs, group, address)
  {
    if fs == [] {
      assert es + fs == es;
    } else {
      var n := |fs| - 1;
      assert (es + fs)[..|es| + n] == es + fs[..n];
      ProjectConcat(es, fs[..n], group, address);
    }
  }

  /** The checkpoint says nothing about this member of this group. */
  ghost predicate Silent(events: seq<GroupsEvent>, group: string, address: string) {
    Project(events, group, address) == []
  }

  lemma {:induction false} SilentIff(events: seq<GroupsEvent>, group: string, address: string)
    ensures Silent(events, group, address) <==> forall e :: e in events ==> !About(e, group, address)
  {
    if Silent(events, group, address) {
      forall e | e in events
        ensures !About(e, group, address)
      {
        ProjectHolds(events, group, address, e);
      }
    } else {
      var e := Project(events, group, address)[0];
      ProjectHolds(events, group, address, e);
    }
  }

  /** Checkpoints that say nothing add nothing. */
  lemma {:induction false} SilentStretch(chain: nat -> seq<GroupsEvent>, from: nat, mid: nat, end: nat,
                                         group: string, address: string)
    requires from <= mid <= end && forall c: nat :: mid <= c < end ==> Silent(chain(c), group, address)
    ensures Project(ChainEvents(chain, from, end), group, address)
            == Project(ChainEvents(chain, from, mid), group, address)
    decreases end
  {
    if mid < end {
      SilentStretch(chain, from, mid, end - 1, group, address);
      ProjectConcat(ChainEvents(chain, from, end - 1), chain(end - 1), group, address);
    }
  }

  /** Every delivery is the chain's own. */
  ghost predicate Honest(chain: nat -> seq<GroupsEvent>, ds: seq<Delivery>) {
    forall k {:trigger HonestAt(chain, ds, k)} :: 0 <= k < |ds| ==> HonestAt(chain, ds, k)
  }

  ghost predicate HonestAt(chain: nat -> seq<GroupsEvent>, ds: seq<Delivery>, k: nat)
    requires k < |ds|
  {
    ds[k].events == chain(ds[k].cursor)
  }

  lemma InitIsHonest(chain: nat -> seq<GroupsEvent>, ds: seq<Delivery>)
    requires Honest(chain, ds) && ds != []
    ensures Honest(chain, ds[..|ds| - 1]) && HonestAt(chain, ds, |ds| - 1)
  {
    var init := ds[..|ds| - 1];
    forall k | 0 <= k < |init|
      ensures HonestAt(chain, init, k)
    {
      assert HonestAt(chain, ds, k);
    }
  }

  ghost predicate AppliedAt(ds: seq<Delivery>, cursor: nat) {
    exists d :: d in Applied(ds) && d.cursor == cursor
  }

  /** What was skipped between the first cursor and the highest says nothing about the member. */
  ghost predicate SkipsNothingAbout(chain: nat -> seq<GroupsEvent>, ds: seq<Delivery>, group: string, address: string)
    requires ds != []
  {
    forall c: nat {:trigger AppliedAt(ds, c)} ::
      ds[0].cursor <= c <= Highest(ds) && !AppliedAt(ds, c) ==> Silent(chain(c), group, address)
  }

  lemma AppliedInit(ds: seq<Delivery>, c: nat)
    requires |ds| > 1
    ensures var n := |ds| - 1;
            AppliedAt(ds, c) <==> AppliedAt(ds[..n], c) || (Accepted(ds, n) && c == ds[n].cursor)
  {
    var n := |ds| - 1;
    var init := Applied(ds[..n]);
    assert forall d :: d in init + [ds[n]] <==> d in init || d == ds[n];
  }

  lemma AppliedBelow(ds: seq<Delivery>, c: nat)
    requires ds != [] && AppliedAt(ds, c)
    ensures c <= Highest(ds)
  {
    AppliedOnce(ds);
    var d :| d in Applied(ds) && d.cursor == c;
    var k :| 0 <= k < |ds| && ds[k] == d;
    HighestBounds(ds, k);
  }

  lemma InitSkipsNothing(chain: nat -> seq<GroupsEvent>, ds: seq<Delivery>, group: string, address: string)
    requires |ds| > 1 && SkipsNothingAbout(chain, ds, group, address)
    ensures SkipsNothingAbout(chain, ds[..|ds| - 1], group, address)
  {
    var n := |ds| - 1;
    HighestBounds(ds, n);
    forall c: nat | ds[0].cursor <= c <= Highest(ds[..n]) && !AppliedAt(ds[..n], c)
      ensures Silent(chain(c), group, address)
    {
      AppliedInit(ds, c);
    }
  }

  /** A skip ahead passes silent checkpoints only. */
  lemma SkippedAreSilent(chain: nat -> seq<GroupsEvent>, ds: seq<Delivery>, group: string, address: string)
    requires |ds| > 1 && SkipsNothingAbout(chain, ds, group, address) && Accepted(ds, |ds| - 1)
    ensures forall c: nat :: Highest(ds[..|ds| - 1]) < c < ds[|ds| - 1].cursor ==> Silent(chain(c), group, address)
  {
    var n := |ds| - 1;
    HighestBounds(ds, n);
    HighestBounds(ds[..n], 0);
    forall c: nat | Highest(ds[..n]) < c < ds[n].cursor
      ensures Silent(chain(c), group, address)
    {
      AppliedInit(ds, c);
      if AppliedAt(ds[..n], c) {
        AppliedBelow(ds[..n], c);
      }
    }
  }

  lemma ExtendProjection(chain: nat -> seq<GroupsEvent>, es: seq<GroupsEvent>, from: nat, mid: nat, next: nat,
                         group: string, address: string)
    requires from <= mid <= next && forall c: nat :: mid <= c < next ==> Silent(chain(c), group, address)
    requires Project(es, group, address) == Project(ChainEvents(chain, from, mid), group, address)
    ensures Project(es + chain(next), group, address) == Project(ChainEvents(chain, from, next + 1), group, address)
  {
    SilentStretch(chain, from, mid, next, group, address);
    ChainNext(chain, from, next);
    ProjectConcat(ChainEvents(chain, from, next), chain(next), group, address);
    ProjectConcat(es, chain(next), group, address);
  }

  /** The highest cursor after one more delivery. */
  lemma OneMoreDelivery(ds: seq<Delivery>)
    requires |ds| > 1
    ensures var n := |ds| - 1;
            && Highest(ds[..n]) >= ds[0].cursor
            && (Accepted(ds, n) <==> Highest(ds[..n]) < ds[n].cursor)
            && Highest(ds) == if Accepted(ds, n) then ds[n].cursor else Highest(ds[..n])
  {
    var n := |ds| - 1;
    HighestBounds(ds, n);
    HighestBounds(ds[..n], 0);
  }

  lemma OneDeliveryProjects(chain: nat -> seq<GroupsEvent>, ds: seq<Delivery>, group: string, address: string)
    requires |ds| == 1 && Honest(chain, ds)
    ensures Project(AppliedEvents(Applied(ds)), group, address) == Project(ChainSeen(chain, ds), group, address)
  {
    InitIsHonest(chain, ds);
    ChainOfOne(chain, ds);
  }

  lemma {:induction false} AppliedProjectsChain(chain: nat -> seq<GroupsEvent>, ds: seq<Delivery>,
                                                group: string, address: string)
    requires ds != [] && Honest(chain, ds) && SkipsNothingAbout(chain, ds, group, address)
    ensures Project(AppliedEvents(Applied(ds)), group, address) == Project(ChainSeen(chain, ds), group, address)
    decreases |ds|
  {
    if |ds| == 1 {
      OneDeliveryProjects(chain, ds, group, address);
    } else {
      var n := |ds| - 1;
      var es := AppliedEvents(Applied(ds[..n]));
      InitIsHonest(chain, ds);
      assert SkipsNothingAbout(chain, ds[..n], group, address) by { InitSkipsNothing(chain, ds, group, address); }
      AppliedProjectsChain(chain, ds[..n], group, address);
      OneMoreDelivery(ds);
      AppliedNext(ds);
      if Accepted(ds, n) {
        SkippedAreSilent(chain, ds, group, address);
        ExtendProjection(chain, es, ds[0].cursor, Highest(ds[..n]) + 1, ds[n].cursor, group, address);
      }
    }
  }

  /** Skipped checkpoints do not matter to a member they say nothing about: its permissions are
      those that the whole chain, read once, gives it. */
  lemma SilentGapsDoNotMatter(chain: nat -> seq<GroupsEvent>, ds: seq<Delivery>, group: string, address: string)
    requires ds != [] && Honest(chain, ds) && SkipsNothingAbout(chain, ds, group, address)
    ensures PermsOf(ReceiveAll(FRESH, ds).members, group, address)
            == PermsOf(ApplyEvents(map[], ChainSeen(chain, ds)), group, address)
  {
    AppliedOnce(ds);
    FoldIsLocal(AppliedEvents(Applied(ds)), group, address);
    FoldIsLocal(ChainSeen(chain, ds), group, address);
    AppliedProjectsChain(chain, ds, group, address);
  }

  // ---- A gap that matters ----

  function Added(group: string, address: string, p: Permission): seq<GroupsEvent> {
    [MemberAdded(group, address), PermissionsGranted(group, address, [p])]
  }

  function Taken(group: string, address: string, p: Permission): seq<GroupsEvent> {
    [PermissionsRevoked(group, address, [p])]
  }

  /** The member is added with the permission, then loses it, then nothing happens. */
  function GrantThenRevoke(group: string, address: string, p: Permission): nat -> seq<GroupsEvent> {
    c => if c == 0 then Added(group, address, p) else if c == 1 then Taken(group, address, p) else []
  }

  function Checkpointed(es: seq<GroupsEvent>): Checkpoint {
    [Some(seq(|es|, i requires 0 <= i < |es| => Some(es[i])))]
  }

  /** One connection sees the first checkpoint and ends; the next begins at the third. */
  function TwoSessions(group: string, address: string, p: Permission): seq<Session> {
    [ Session(true, [Received(Some(0), Some(Checkpointed(Added(group, address, p))))]),
      Session(true, [Received(Some(2), Some([]))]) ]
  }

  lemma FirstSessionDelivers(group: string, address: string, p: Permission)
    ensures EventsOf(Checkpointed(Added(group, address, p))) == Added(group, address, p)
  {
    var es := Added(group, address, p);
    var items := seq(|es|, i requires 0 <= i < |es| => Some(es[i]));
    assert items == [Some(es[0]), Some(es[1])];
    assert items[..1] == [Some(es[0])] && items[..1][..0] == [];
    assert Parsed(items[..1]) == [es[0]];
    assert Checkpointed(es)[..0] == [];
    assert EventsOf([]) == [];
  }

  function GapDeliveries(group: string, address: string, p: Permission): seq<Delivery> {
    [Delivery(0, Added(group, address, p)), Delivery(2, [])]
  }

  lemma SessionsDeliver(group: string, address: string, p: Permission)
    ensures AllDeliveries(TwoSessions(group, address, p)) == GapDeliveries(group, address, p)
  {
    FirstSessionDelivers(group, address, p);
    var ss := TwoSessions(group, address, p);
    assert ss[0].items[1..] == [] && ss[1].items[1..] == [];
    assert DeliveryOf(ss[0].items[0]) == Delivery(0, Added(group, address, p));
    assert Delivered([]) == [];
    assert SessionDeliveries(ss[0]) == [DeliveryOf(ss[0].items[0])];
    assert SessionDeliveries(ss[1]) == [DeliveryOf(ss[1].items[0])];
    assert ss[..1] == [ss[0]] && ss[..1][..0] == [];
    assert AllDeliveries(ss[..1]) == [] + SessionDeliveries(ss[0]);
  }

  lemma GapState(group: string, address: string, p: Permission)
    ensures Holds(ReceiveAll(FRESH, GapDeliveries(group, address, p)).members, group, address, p)
  {
    var ds, es := GapDeliveries(group, address, p), Added(group, address, p);
    assert ds[..1] == [ds[0]] && ds[..1][..0] == [];
    assert es[..1] == [es[0]] && es[..1][..0] == [];
    var ms := ApplyEvents(map[], es);
    assert ApplyEvents(map[], es[..1]) == ApplyEvent(ApplyEvents(map[], []), es[0]);
    assert ms == ApplyEvent(ApplyEvent(map[], es[0]), es[1]);
    assert p in SetOf([p]) by { assert p in [p]; }
    assert ReceiveAll(FRESH, ds[..1]).members == ms;
    assert ReceiveAll(FRESH, ds).members == ApplyEvents(ms, []);
  }

  lemma ChainState(group: string, address: string, p: Permission)
    ensures var es := ChainSeen(GrantThenRevoke(group, address, p), GapDeliveries(group, address, p));
            es == Added(group, address, p) + Taken(group, address, p)
            && !Holds(ApplyEvents(map[], es), group, address, p)
  {
    var chain, ds := GrantThenRevoke(group, address, p), GapDeliveries(group, address, p);
    assert ds[..1] == [ds[0]] && Highest(ds[..1]) == 0 && Highest(ds) == 2;
    assert ChainEvents(chain, 0, 0) == [];
    assert ChainEvents(chain, 0, 1) == [] + chain(0);
    assert ChainEvents(chain, 0, 2) == ChainEvents(chain, 0, 1) + chain(1);
    assert ChainEvents(chain, 0, 3) == ChainEvents(chain, 0, 2) + chain(2);
    var es := Added(group, address, p) + Taken(group, address, p);
    assert es[..2] == Added(group, address, p);
    assert ApplyEvents(map[], es) == ApplyEvent(ApplyEvents(map[], es[..2]), es[2]);
    assert p in SetOf([p]) by { assert p in [p]; }
  }

  /** For every member and permission: the chain grants and then revokes it, the revocation falls
      between two connections, and the cache goes on granting what the chain denies. */
  lemma RevocationInGapIsMissed(group: string, address: string, p: Permission)
    ensures var chain, ds := GrantThenRevoke(group, address, p), AllDeliveries(TwoSessions(group, address, p));
            && ds != [] && Honest(chain, ds)
            && Holds(ReceiveAll(FRESH, ds).members, group, address, p)
            && !HeldByHistory(ChainSeen(chain, ds), group, address, p)
  {
    var chain, ds := GrantThenRevoke(group, address, p), GapDeliveries(group, address, p);
    SessionsDeliver(group, address, p);
    GapState(group, address, p);
    ChainState(group, address, p);
    HasPermissionIff(ChainSeen(chain, ds), group, address, p);
    assert HonestAt(chain, ds, 0) && HonestAt(chain, ds, 1);
  }
}
