/** The checkpoint subscription that feeds the membership cache, across reconnects. */
module MembershipSync {
  import opened Wrappers
  import opened Permissions
  import opened Membership
  import opened MembershipHistory

  /** A transaction may carry no events; an event may not parse as one of the groups package. */
  type Checkpoint = seq<Option<seq<Option<GroupsEvent>>>>

  datatype StreamItem =
    | Broken
    | Received(cursor: Option<nat>, checkpoint: Option<Checkpoint>)

  /** One connection: it may fail to open, deliver items, break or end. */
  datatype Session = Session(opens: bool, items: seq<StreamItem>)

  function Parsed(events: seq<Option<GroupsEvent>>): seq<GroupsEvent> {
    if events == [] then []
    else
      var init, last := Parsed(events[..|events| - 1]), events[|events| - 1];
      match last
      case None => init
      case Some(e) => init + [e]
  }

  function EventsOf(c: Checkpoint): seq<GroupsEvent> {
    if c == [] then []
    else
      var init, last := EventsOf(c[..|c| - 1]), c[|c| - 1];
      match last
      case None => init
      case Some(events) => init + Parsed(events)
  }

  datatype SyncState = SyncState(members: Members, lastCursor: Option<nat>)

  /** An item with its defaults filled in. */
  datatype Delivery = Delivery(cursor: nat, events: seq<GroupsEvent>)

  function DeliveryOf(item: StreamItem): Delivery
    requires item.Received?
  {
    Delivery(match item.cursor case None => 0 case Some(c) => c,
             match item.checkpoint case None => [] case Some(c) => EventsOf(c))
  }

  predicate IsNew(last: Option<nat>, cursor: nat) {
    last.Some? ==> cursor > last.value
  }

  function Receive(st: SyncState, d: Delivery): SyncState {
    if IsNew(st.lastCursor, d.cursor) then SyncState(ApplyEvents(st.members, d.events), Some(d.cursor)) else st
  }

  function ReceiveAll(st: SyncState, ds: seq<Delivery>): SyncState {
    if ds == [] then st else Receive(ReceiveAll(st, ds[..|ds| - 1]), ds[|ds| - 1])
  }

  /** What a session delivers before it breaks. */
  function Delivered(items: seq<StreamItem>): seq<Delivery> {
    if items == [] || items[0].Broken? then [] else [DeliveryOf(items[0])] + Delivered(items[1..])
  }

  function SessionDeliveries(session: Session): seq<Delivery> {
    if session.opens then Delivered(session.items) else []
  }

  function AllDeliveries(sessions: seq<Session>): seq<Delivery> {
    if sessions == [] then []
    else AllDeliveries(sessions[..|sessions| - 1]) + SessionDeliveries(sessions[|sessions| - 1])
  }

  lemma {:induction false} ReceiveConcat(st: SyncState, ds: seq<Delivery>, es: seq<Delivery>)
    ensures ReceiveAll(st, ds + es) == ReceiveAll(ReceiveAll(st, ds), es)
  {
    if es == [] {
      assert ds + es == ds;
    } else {
      var n := |es| - 1;
      assert (ds + es)[..|ds| + n] == ds + es[..n];
      ReceiveConcat(st, ds, es[..n]);
    }
  }

  lemma DeliveredNext(items: seq<StreamItem>, i: nat)
    requires i < |items| && forall k :: 0 <= k <= i ==> items[k].Received?
    ensures Delivered(items[..i + 1]) == Delivered(items[..i]) + [DeliveryOf(items[i])]
    decreases i
  {
    if i > 0 {
      assert items[1..][..i] == items[..i + 1][1..] && items[1..][..i - 1] == items[..i][1..];
      DeliveredNext(items[1..], i - 1);
    }
  }

  lemma {:induction false} DeliveredStops(items: seq<StreamItem>, i: nat)
    requires i <= |items| && (i < |items| ==> items[i].Broken?)
    requires forall k :: 0 <= k < i ==> items[k].Received?
    ensures Delivered(items) == Delivered(items[..i])
    decreases i
  {
    if i > 0 {
      assert items[..i][1..] == items[1..][..i - 1];
      DeliveredStops(items[1..], i - 1);
    }
  }

  class MembershipSyncService {
    const store: InMemoryMembershipStore
    var lastCursor: Option<nat>

    constructor (store: InMemoryMembershipStore)
      ensures this.store == store && lastCursor == None
    {
      this.store := store;
      lastCursor := None;
    }

    function State(): SyncState
      reads this, store
    {
      SyncState(store.members, lastCursor)
    }

    method ApplyOne(event: GroupsEvent)
      modifies store
      ensures store.members == ApplyEvent(old(store.members), event)
    {
      assert SetOf([]) == {};
      match event
      case MemberAdded(g, a) => store.AddMember(g, a, []);
      case MemberRemoved(g, a) => store.RemoveMember(g, a);
      case PermissionsGranted(g, a, ps) => var _ := store.GrantPermissions(g, a, ps);
      case PermissionsRevoked(g, a, ps) => var _ := store.RevokePermissions(g, a, ps);
    }

    method ApplyParsed(events: seq<Option<GroupsEvent>>)
      modifies store
      ensures store.members == ApplyEvents(old(store.members), Parsed(events))
    {
      for i := 0 to |events|
        invariant store.members == ApplyEvents(old(store.members), Parsed(events[..i]))
      {
        assert events[..i + 1][..i] == events[..i];
        if events[i].Some? {
          ApplyOne(events[i].value);
          var init := Parsed(events[..i]);
          assert (init + [events[i].value])[..|init|] == init;
        }
      }
      assert events[..|events|] == events;
    }

    method ProcessCheckpoint(checkpoint: Checkpoint)
      modifies store
      ensures store.members == ApplyEvents(old(store.members), EventsOf(checkpoint))
    {
      for i := 0 to |checkpoint|
        invariant store.members == ApplyEvents(old(store.members), EventsOf(checkpoint[..i]))
      {
        assert checkpoint[..i + 1][..i] == checkpoint[..i];
        if checkpoint[i].Some? {
          ApplyConcat(old(store.members), EventsOf(checkpoint[..i]), Parsed(checkpoint[i].value));
          ApplyParsed(checkpoint[i].value);
        }
      }
      assert checkpoint[..|checkpoint|] == checkpoint;
    }

    /** One connection; `false` when it failed to open or broke. */
    method RunSubscription(session: Session) returns (ok: bool)
      modifies this, store
      ensures State() == ReceiveAll(old(State()), SessionDeliveries(session))
      ensures ok <==> session.opens && Broken !in session.items
    {
      if !session.opens {
        return false;
      }
      var items := session.items;
      for i := 0 to |items|
        invariant forall k :: 0 <= k < i ==> items[k].Received?
        invariant State() == ReceiveAll(old(State()), Delivered(items[..i]))
      {
        if items[i].Broken? {
          DeliveredStops(items, i);
          return false;
        }
        DeliveredNext(items, i);
        ghost var d := DeliveryOf(items[i]);
        ghost var before := Delivered(items[..i]);
        assert (before + [d])[..|before|] == before;
        var cursor := match items[i].cursor case None => 0 case Some(c) => c;
        if lastCursor.Some? && cursor <= lastCursor.value {
          continue;
        }
        if items[i].checkpoint.Some? {
          ProcessCheckpoint(items[i].checkpoint.value);
        }
        lastCursor := Some(cursor);
      }
      DeliveredStops(items, |items|);
      ok := true;
    }

    /** Reconnects after every end and every error. */
    method RunSessions(sessions: seq<Session>)
      modifies this, store
      ensures State() == ReceiveAll(old(State()), AllDeliveries(sessions))
    {
      for i := 0 to |sessions|
        invariant State() == ReceiveAll(old(State()), AllDeliveries(sessions[..i]))
      {
        assert sessions[..i + 1][..i] == sessions[..i];
        ReceiveConcat(old(State()), AllDeliveries(sessions[..i]), SessionDeliveries(sessions[i]));
        var _ := RunSubscription(sessions[i]);
      }
      assert sessions[..|sessions|] == sessions;
    }
  }

  // ---- Exactly once ----

  /** A delivery counts when its cursor is above every cursor delivered before it. */
  predicate Accepted(ds: seq<Delivery>, k: nat)
    requires k < |ds|
  {
    forall j :: 0 <= j < k ==> ds[j].cursor < ds[k].cursor
  }

  /** The deliveries that count, in order. */
  function Applied(ds: seq<Delivery>): seq<Delivery> {
    if ds == [] then []
    else
      var n := |ds| - 1;
      var init := Applied(ds[..n]);
      if Accepted(ds, n) then init + [ds[n]] else init
  }

  function AppliedEvents(ds: seq<Delivery>): seq<GroupsEvent> {
    if ds == [] then [] else AppliedEvents(ds[..|ds| - 1]) + ds[|ds| - 1].events
  }

  const FRESH := SyncState(map[], None)

  /** The cursor held is the highest delivered. */
  lemma {:induction false} CursorIsHighest(ds: seq<Delivery>)
    ensures var last := ReceiveAll(FRESH, ds).lastCursor;
            && (last.None? <==> ds == [])
            && (last.Some? ==> (exists k :: 0 <= k < |ds| && ds[k].cursor == last.value)
                               && forall k :: 0 <= k < |ds| ==> ds[k].cursor <= last.value)
  {
    if ds != [] {
      var n := |ds| - 1;
      CursorIsHighest(ds[..n]);
      assert forall k :: 0 <= k < n ==> ds[..n][k] == ds[k];
    }
  }

  lemma AcceptedIffNew(ds: seq<Delivery>)
    requires ds != []
    ensures var n := |ds| - 1; Accepted(ds, n) <==> IsNew(ReceiveAll(FRESH, ds[..n]).lastCursor, ds[n].cursor)
  {
    var n := |ds| - 1;
    CursorIsHighest(ds[..n]);
    assert forall k :: 0 <= k < n ==> ds[..n][k] == ds[k];
  }

  lemma {:induction false} AppliedAscends(ds: seq<Delivery>)
    ensures forall i, j :: 0 <= i < j < |Applied(ds)| ==> Applied(ds)[i].cursor < Applied(ds)[j].cursor
    ensures forall d :: d in Applied(ds) ==> exists k :: 0 <= k < |ds| && ds[k] == d
  {
    if ds != [] {
      var n := |ds| - 1;
      AppliedAscends(ds[..n]);
      var init := Applied(ds[..n]);
      forall d | d in init
        ensures exists k :: 0 <= k < n && ds[k] == d
      {
        var k :| 0 <= k < n && ds[..n][k] == d;
        assert ds[k] == d;
      }
      forall i | 0 <= i < |init| && Accepted(ds, n)
        ensures init[i].cursor < ds[n].cursor
      {
        assert init[i] in init;
      }
    }
  }

  /** Over any sessions with redelivery, errors and reconnects: the checkpoints applied have
      strictly increasing cursors, and the store is one fold over their events. */
  lemma {:induction false} AppliedOnce(ds: seq<Delivery>)
    ensures ReceiveAll(FRESH, ds).members == ApplyEvents(map[], AppliedEvents(Applied(ds)))
    ensures forall i, j :: 0 <= i < j < |Applied(ds)| ==> Applied(ds)[i].cursor < Applied(ds)[j].cursor
    ensures forall d :: d in Applied(ds) ==> d in ds
  {
    AppliedAscends(ds);
    if ds != [] {
      var n := |ds| - 1;
      AppliedOnce(ds[..n]);
      AcceptedIffNew(ds);
      var init := Applied(ds[..n]);
      assert (init + [ds[n]])[..|init|] == init;
      ApplyConcat(map[], AppliedEvents(init), ds[n].events);
    }
  }

  /** The checkpoints `from` to `to`, the last excluded, as the chain has them. */
  function ChainEvents(chain: nat -> seq<GroupsEvent>, from: nat, to: nat): seq<GroupsEvent> {
    if to <= from then [] else ChainEvents(chain, from, to - 1) + chain(to - 1)
  }

  /** Delivery `k` does not skip ahead of what was delivered before it. */
  ghost predicate NoSkip(ds: seq<Delivery>, k: nat)
    requires k < |ds|
  {
    k > 0 ==> exists j :: 0 <= j < k && ds[k].cursor <= ds[j].cursor + 1
  }

  /** Every delivery is the chain's own, and none skips ahead. */
  ghost predicate FollowsChain(chain: nat -> seq<GroupsEvent>, ds: seq<Delivery>) {
    && (forall k :: 0 <= k < |ds| ==> ds[k].events == chain(ds[k].cursor))
    && forall k {:trigger NoSkip(ds, k)} :: 0 <= k < |ds| ==> NoSkip(ds, k)
  }

  lemma AppliedNext(ds: seq<Delivery>)
    requires ds != []
    ensures var n := |ds| - 1;
            AppliedEvents(Applied(ds))
            == if Accepted(ds, n) then AppliedEvents(Applied(ds[..n])) + ds[n].events
               else AppliedEvents(Applied(ds[..n]))
  {
    var n := |ds| - 1;
    var init := Applied(ds[..n]);
    assert (init + [ds[n]])[..|init|] == init;
  }

  function Highest(ds: seq<Delivery>): nat
    requires ds != []
  {
    var last := ds[|ds| - 1].cursor;
    if |ds| == 1 || Highest(ds[..|ds| - 1]) < last then last else Highest(ds[..|ds| - 1])
  }

  lemma {:induction false} HighestBounds(ds: seq<Delivery>, k: nat)
    requires k < |ds|
    ensures ds[k].cursor <= Highest(ds)
    ensures Accepted(ds, |ds| - 1) <==> |ds| == 1 || Highest(ds[..|ds| - 1]) < ds[|ds| - 1].cursor
  {
    var init := ds[..|ds| - 1];
    forall j | 0 <= j < |init|
      ensures ds[j].cursor <= Highest(init)
    {
      HighestBounds(init, j);
      assert init[j] == ds[j];
    }
    if init != [] {
      HighestReached(init);
    }
  }

  lemma {:induction false} HighestReached(ds: seq<Delivery>)
    requires ds != []
    ensures exists k :: 0 <= k < |ds| && ds[k].cursor == Highest(ds)
  {
    var init := ds[..|ds| - 1];
    assert ds[|ds| - 1].cursor == ds[|ds| - 1].cursor;
    if init != [] {
      HighestReached(init);
      var k :| 0 <= k < |init| && init[k].cursor == Highest(init);
      assert ds[k].cursor == Highest(init);
    }
  }

  lemma ChainOfOne(chain: nat -> seq<GroupsEvent>, ds: seq<Delivery>)
    requires |ds| == 1 && ds[0].events == chain(ds[0].cursor)
    ensures AppliedEvents(Applied(ds)) == ChainEvents(chain, ds[0].cursor, ds[0].cursor + 1)
  {
    assert ds[..0] == [];
    assert Applied(ds) == [ds[0]];
    assert AppliedEvents([ds[0]]) == [] + ds[0].events;
    assert ChainEvents(chain, ds[0].cursor, ds[0].cursor) == [];
  }

  /** If no delivery skips ahead, what is applied is the whole chain from the first cursor ever
      delivered to the highest, each checkpoint once. */
  lemma {:induction false} ChainAppliedOnce(chain: nat -> seq<GroupsEvent>, ds: seq<Delivery>)
    requires FollowsChain(chain, ds) && ds != []
    ensures ds[0].cursor <= Highest(ds)
    ensures AppliedEvents(Applied(ds)) == ChainEvents(chain, ds[0].cursor, Highest(ds) + 1)
    decreases |ds|
  {
    HighestBounds(ds, 0);
    if |ds| == 1 {
      ChainOfOne(chain, ds);
    } else {
      var n := |ds| - 1;
      assert FollowsChain(chain, ds[..n]) by { InitFollowsChain(chain, ds); }
      ChainAppliedOnce(chain, ds[..n]);
      AppliedNext(ds);
      if Accepted(ds, n) {
        assert NoSkip(ds, n);
        AcceptedIsNext(ds);
        ChainNext(chain, ds[0].cursor, Highest(ds));
      }
    }
  }

  lemma ChainNext(chain: nat -> seq<GroupsEvent>, from: nat, to: nat)
    requires from <= to
    ensures ChainEvents(chain, from, to + 1) == ChainEvents(chain, from, to) + chain(to)
  {
  }

  lemma InitFollowsChain(chain: nat -> seq<GroupsEvent>, ds: seq<Delivery>)
    requires FollowsChain(chain, ds) && ds != []
    ensures FollowsChain(chain, ds[..|ds| - 1])
  {
    var init := ds[..|ds| - 1];
    forall k | 0 <= k < |init|
      ensures init[k].events == chain(init[k].cursor) && NoSkip(init, k)
    {
      assert NoSkip(ds, k);
      InitNoSkip(ds, k);
    }
  }

  lemma AcceptedIsNext(ds: seq<Delivery>)
    requires |ds| > 1 && NoSkip(ds, |ds| - 1) && Accepted(ds, |ds| - 1)
    ensures ds[|ds| - 1].cursor == Highest(ds[..|ds| - 1]) + 1 == Highest(ds)
  {
    var n := |ds| - 1;
    var j :| 0 <= j < n && ds[n].cursor <= ds[j].cursor + 1;
    HighestBounds(ds[..n], j);
    HighestBounds(ds, n);
  }

  lemma InitNoSkip(ds: seq<Delivery>, k: nat)
    requires k < |ds| - 1 && NoSkip(ds, k)
    ensures NoSkip(ds[..|ds| - 1], k)
  {
    if k > 0 {
      var j :| 0 <= j < k && ds[k].cursor <= ds[j].cursor + 1;
      assert ds[..|ds| - 1][j] == ds[j];
    }
  }

  predicate Succeeds(session: seq<Delivery>, k: nat)
    requires k < |session|
  {
    k > 0 ==> session[k].cursor == session[k - 1].cursor + 1
  }

  /** A run of the chain's consecutive checkpoints that starts no later than one past some
      cursor delivered before it. */
  ghost predicate Contiguous(chain: nat -> seq<GroupsEvent>, ds: seq<Delivery>, session: seq<Delivery>) {
    && (forall k :: 0 <= k < |session| ==> session[k].events == chain(session[k].cursor))
    && (forall k {:trigger Succeeds(session, k)} :: 0 <= k < |session| ==> Succeeds(session, k))
    && (ds != [] && session != [] ==> exists j :: 0 <= j < |ds| && session[0].cursor <= ds[j].cursor + 1)
  }

  lemma ContiguousFollowsChain(chain: nat -> seq<GroupsEvent>, ds: seq<Delivery>, session: seq<Delivery>)
    requires FollowsChain(chain, ds) && Contiguous(chain, ds, session)
    ensures FollowsChain(chain, ds + session)
  {
    var all := ds + session;
    forall k | 0 <= k < |all|
      ensures all[k].events == chain(all[k].cursor) && NoSkip(all, k)
    {
      if k < |ds| {
        assert all[k] == ds[k] && NoSkip(ds, k);
        if k > 0 {
          var j :| 0 <= j < k && ds[k].cursor <= ds[j].cursor + 1;
          assert all[j] == ds[j];
        }
      } else if k > |ds| {
        assert Succeeds(session, k - |ds|);
        assert all[k] == session[k - |ds|] && all[k - 1] == session[k - |ds| - 1];
      } else if k > 0 {
        var j :| 0 <= j < |ds| && session[0].cursor <= ds[j].cursor + 1;
        assert all[k] == session[0] && all[j] == ds[j];
      }
    }
  }

  /** Every connection delivers consecutive checkpoints and none leaves a gap to what came before. */
  ghost predicate NoGaps(chain: nat -> seq<GroupsEvent>, sessions: seq<Session>) {
    forall i {:trigger Continues(chain, sessions, i)} :: 0 <= i < |sessions| ==> Continues(chain, sessions, i)
  }

  ghost predicate Continues(chain: nat -> seq<GroupsEvent>, sessions: seq<Session>, i: nat)
    requires i < |sessions|
  {
    Contiguous(chain, AllDeliveries(sessions[..i]), SessionDeliveries(sessions[i]))
  }

  lemma {:induction false} NoGapsFollowsChain(chain: nat -> seq<GroupsEvent>, sessions: seq<Session>)
    requires NoGaps(chain, sessions)
    ensures FollowsChain(chain, AllDeliveries(sessions))
    decreases |sessions|
  {
    if sessions != [] {
      var n := |sessions| - 1;
      forall i | 0 <= i < n
        ensures Continues(chain, sessions[..n], i)
      {
        assert Continues(chain, sessions, i);
        assert sessions[..n][..i] == sessions[..i];
      }
      NoGapsFollowsChain(chain, sessions[..n]);
      assert Continues(chain, sessions, n);
      ContiguousFollowsChain(chain, AllDeliveries(sessions[..n]), SessionDeliveries(sessions[n]));
    }
  }

  /** What the chain says from the first cursor delivered to the highest. */
  function ChainSeen(chain: nat -> seq<GroupsEvent>, ds: seq<Delivery>): seq<GroupsEvent>
    requires ds != []
  {
    ChainEvents(chain, ds[0].cursor, Highest(ds) + 1)
  }

  lemma CacheMatchesChain(chain: nat -> seq<GroupsEvent>, ds: seq<Delivery>)
    requires FollowsChain(chain, ds) && ds != []
    ensures ReceiveAll(FRESH, ds).members == ApplyEvents(map[], ChainSeen(chain, ds))
  {
    ChainAppliedOnce(chain, ds);
    AppliedOnce(ds);
  }

  /** Exactly once: over any number of connections without gaps, however much they redeliver,
      the cache is one fold over the chain, from the first cursor delivered to the highest. */
  lemma SessionsMatchChain(chain: nat -> seq<GroupsEvent>, sessions: seq<Session>)
    requires NoGaps(chain, sessions) && AllDeliveries(sessions) != []
    ensures ReceiveAll(FRESH, AllDeliveries(sessions)).members
            == ApplyEvents(map[], ChainSeen(chain, AllDeliveries(sessions)))
  {
    NoGapsFollowsChain(chain, sessions);
    CacheMatchesChain(chain, AllDeliveries(sessions));
  }

  /** So a permission is held exactly when the chain's own history, read once, says so. */
  lemma ChainDecides(chain: nat -> seq<GroupsEvent>, sessions: seq<Session>, group: string, address: string,
                     p: Permission)
    requires NoGaps(chain, sessions) && AllDeliveries(sessions) != []
    ensures Holds(ReceiveAll(FRESH, AllDeliveries(sessions)).members, group, address, p) <==>
              HeldByHistory(ChainSeen(chain, AllDeliveries(sessions)), group, address, p)
  {
    SessionsMatchChain(chain, sessions);
    HasPermissionIff(ChainSeen(chain, AllDeliveries(sessions)), group, address, p);
  }
}
