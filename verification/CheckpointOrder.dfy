/** In which order events reach the membership cache: by transaction, then by place in it. */
module CheckpointOrder {
  import opened Wrappers
  import opened Permissions
  import opened Membership
  import opened MembershipHistory
  import opened MembershipSync

  /** A place in a sequence of sequences. */
  datatype Position = Position(row: nat, column: nat)

  predicate Precedes(a: Position, b: Position) {
    a.row < b.row || (a.row == b.row && a.column < b.column)
  }

  ghost predicate InOrder(from: seq<Position>) {
    forall j, k :: 0 <= j < k < |from| ==> Precedes(from[j], from[k])
  }

  /** A transaction with events, and in it an event that parses. */
  predicate HasEvent(c: Checkpoint, p: Position) {
    p.row < |c| && c[p.row].Some? && p.column < |c[p.row].value| && c[p.row].value[p.column].Some?
  }

  function EventAt(c: Checkpoint, p: Position): GroupsEvent
    requires HasEvent(c, p)
  {
    c[p.row].value[p.column].value
  }

  /** `from` lists, in order, exactly the places of parsed events. */
  ghost predicate EventPositions(c: Checkpoint, from: seq<Position>) {
    InOrder(from) && forall p {:trigger p in from} :: p in from <==> HasEvent(c, p)
  }

  /** And `es` are the events there. */
  ghost predicate EventsFrom(c: Checkpoint, from: seq<Position>, es: seq<GroupsEvent>) {
    && |es| == |from|
    && forall k :: 0 <= k < |from| ==> HasEvent(c, from[k]) && es[k] == EventAt(c, from[k])
  }

  /** Within one transaction. */
  ghost predicate ParsedFrom(events: seq<Option<GroupsEvent>>, columns: seq<nat>, es: seq<GroupsEvent>) {
    && |es| == |columns|
    && (forall j, k :: 0 <= j < k < |columns| ==> columns[j] < columns[k])
    && (forall k :: 0 <= k < |columns| ==> columns[k] < |events| && events[columns[k]] == Some(es[k]))
    && forall i: nat {:trigger i in columns} :: i in columns <==> i < |events| && events[i].Some?
  }

  lemma NextColumn(events: seq<Option<GroupsEvent>>, columns: seq<nat>, es: seq<GroupsEvent>)
    requires events != [] && ParsedFrom(events[..|events| - 1], columns, es)
    ensures var n := |events| - 1;
            match events[n]
            case None => ParsedFrom(events, columns, es)
            case Some(e) => ParsedFrom(events, columns + [n], es + [e])
  {
    var n: nat := |events| - 1;
    forall k | 0 <= k < |columns|
      ensures columns[k] < n && events[columns[k]] == Some(es[k])
    {
      assert columns[k] in columns && events[..n][columns[k]] == events[columns[k]];
    }
    forall i: nat
      ensures i in columns <==> i < n && events[i].Some?
    {
      assert i < n ==> events[..n][i] == events[i];
    }
    assert forall i: nat :: i in columns + [n] <==> i in columns || i == n;
  }

  lemma {:induction false} ParsedColumns(events: seq<Option<GroupsEvent>>) returns (columns: seq<nat>)
    ensures ParsedFrom(events, columns, Parsed(events))
  {
    columns := [];
    if events != [] {
      var n: nat := |events| - 1;
      columns := ParsedColumns(events[..n]);
      NextColumn(events, columns, Parsed(events[..n]));
      columns := if events[n].Some? then columns + [n] else columns;
    }
  }

  function RowOf(columns: seq<nat>, row: nat): seq<Position> {
    seq(|columns|, k requires 0 <= k < |columns| => Position(row, columns[k]))
  }

  lemma InRowIff(columns: seq<nat>, row: nat, p: Position)
    ensures p in RowOf(columns, row) <==> p.row == row && p.column in columns
  {
    if p.row == row && p.column in columns {
      var k :| 0 <= k < |columns| && columns[k] == p.column;
      assert RowOf(columns, row)[k] == p;
    }
  }

  lemma NextRow(from: seq<Position>, columns: seq<nat>, row: nat)
    requires InOrder(from) && forall p :: p in from ==> p.row < row
    requires forall j, k :: 0 <= j < k < |columns| ==> columns[j] < columns[k]
    ensures InOrder(from + RowOf(columns, row))
  {
    forall k | 0 <= k < |from|
      ensures from[k].row < row
    {
      assert from[k] in from;
    }
  }

  lemma EarlierRows(c: Checkpoint, p: Position)
    requires c != []
    ensures HasEvent(c[..|c| - 1], p) <==> HasEvent(c, p) && p.row < |c| - 1
  {
  }

  lemma NextPositions(c: Checkpoint, before: seq<Position>, columns: seq<nat>)
    requires c != [] && EventPositions(c[..|c| - 1], before)
    requires forall j, k :: 0 <= j < k < |columns| ==> columns[j] < columns[k]
    requires forall i: nat :: i in columns <==> HasEvent(c, Position(|c| - 1, i))
    ensures EventPositions(c, before + RowOf(columns, |c| - 1))
  {
    var n: nat := |c| - 1;
    forall p
      ensures p in before <==> HasEvent(c, p) && p.row < n
    {
      EarlierRows(c, p);
    }
    NextRow(before, columns, n);
    forall p
      ensures p in before + RowOf(columns, n) <==> HasEvent(c, p)
    {
      InRowIff(columns, n, p);
      assert p.row == n ==> p == Position(n, p.column);
    }
  }

  lemma NextEvents(c: Checkpoint, before: seq<Position>, es: seq<GroupsEvent>, columns: seq<nat>, fs: seq<GroupsEvent>)
    requires c != [] && EventsFrom(c[..|c| - 1], before, es) && |fs| == |columns|
    requires forall k :: 0 <= k < |columns| ==> HasEvent(c, Position(|c| - 1, columns[k]))
                                                && EventAt(c, Position(|c| - 1, columns[k])) == fs[k]
    ensures EventsFrom(c, before + RowOf(columns, |c| - 1), es + fs)
  {
    forall k | 0 <= k < |before|
      ensures HasEvent(c, before[k]) && es[k] == EventAt(c, before[k])
    {
      EarlierRows(c, before[k]);
    }
  }

  /** What the last transaction adds. */
  lemma LastRow(c: Checkpoint) returns (columns: seq<nat>, fs: seq<GroupsEvent>)
    requires c != []
    ensures EventsOf(c) == EventsOf(c[..|c| - 1]) + fs && |fs| == |columns|
    ensures forall j, k :: 0 <= j < k < |columns| ==> columns[j] < columns[k]
    ensures forall i: nat :: i in columns <==> HasEvent(c, Position(|c| - 1, i))
    ensures forall k :: 0 <= k < |columns| ==> HasEvent(c, Position(|c| - 1, columns[k]))
                                               && EventAt(c, Position(|c| - 1, columns[k])) == fs[k]
  {
    columns, fs := [], [];
    if c[|c| - 1].Some? {
      columns := ParsedColumns(c[|c| - 1].value);
      fs := Parsed(c[|c| - 1].value);
    }
  }

  /** Where every applied event of a checkpoint comes from. */
  lemma {:induction false} EventsInOrder(c: Checkpoint) returns (from: seq<Position>)
    ensures EventPositions(c, from) && EventsFrom(c, from, EventsOf(c))
  {
    from := [];
    if c != [] {
      var n: nat := |c| - 1;
      var before := EventsInOrder(c[..n]);
      var columns, fs := LastRow(c);
      NextPositions(c, before, columns);
      NextEvents(c, before, EventsOf(c[..n]), columns, fs);
      from := before + RowOf(columns, n);
    }
  }

  // ---- What one checkpoint leaves behind ----

  /** The add at `p` is the last add or remove of the member. */
  ghost predicate EntersAt(c: Checkpoint, p: Position, group: string, address: string) {
    && HasEvent(c, p) && EventAt(c, p) == MemberAdded(group, address)
    && forall q {:trigger HasEvent(c, q)} :: HasEvent(c, q) && Precedes(p, q) ==>
         EventAt(c, q) != MemberAdded(group, address) && EventAt(c, q) != MemberRemoved(group, address)
  }

  predicate Grants(e: GroupsEvent, group: string, address: string, p: Permission) {
    e.PermissionsGranted? && e.group == group && e.member == address && p in e.permissions
  }

  predicate Revokes(e: GroupsEvent, group: string, address: string, p: Permission) {
    e.PermissionsRevoked? && e.group == group && e.member == address && p in e.permissions
  }

  /** The event at `q` grants the permission, and no later one revokes it. */
  ghost predicate GrantsAt(c: Checkpoint, q: Position, group: string, address: string, permission: Permission) {
    && HasEvent(c, q) && Grants(EventAt(c, q), group, address, permission)
    && forall r {:trigger HasEvent(c, r)} :: HasEvent(c, r) && Precedes(q, r) ==>
         !Revokes(EventAt(c, r), group, address, permission)
  }

  lemma PrecedesIff(from: seq<Position>, i: nat, j: nat)
    requires InOrder(from) && i < |from| && j < |from|
    ensures Precedes(from[i], from[j]) <==> i < j
  {
    if j < i {
      assert Precedes(from[j], from[i]);
    }
  }

  lemma EntersAtIff(c: Checkpoint, from: seq<Position>, es: seq<GroupsEvent>, i: nat, group: string, address: string,
                    permission: Permission)
    requires EventPositions(c, from) && EventsFrom(c, from, es) && i < |es|
    ensures EntersLast(es, i, group, address, permission) <==> EntersAt(c, from[i], group, address)
  {
    forall k | 0 <= k < |es|
      ensures Precedes(from[i], from[k]) <==> i < k
      ensures WordAt(es, k, group, address, permission).Enters? <==> EventAt(c, from[k]) == MemberAdded(group, address)
      ensures WordAt(es, k, group, address, permission).Leaves? <==>
          EventAt(c, from[k]) == MemberRemoved(group, address)
      ensures HasEvent(c, from[k])
    {
      PrecedesIff(from, i, k);
    }
    if EntersLast(es, i, group, address, permission) {
      forall q | HasEvent(c, q) && Precedes(from[i], q)
        ensures EventAt(c, q) != MemberAdded(group, address) && EventAt(c, q) != MemberRemoved(group, address)
      {
        assert q in from;
        var k :| 0 <= k < |from| && from[k] == q;
      }
    }
  }

  lemma GrantsAtIff(c: Checkpoint, from: seq<Position>, es: seq<GroupsEvent>, j: nat, group: string, address: string,
                    permission: Permission)
    requires EventPositions(c, from) && EventsFrom(c, from, es) && j < |es|
    ensures GainsLast(es, j, group, address, permission) <==> GrantsAt(c, from[j], group, address, permission)
  {
    forall k | 0 <= k < |es|
      ensures Precedes(from[j], from[k]) <==> j < k
      ensures WordAt(es, k, group, address, permission).Gains? <==>
          Grants(EventAt(c, from[k]), group, address, permission)
      ensures WordAt(es, k, group, address, permission).Loses? <==>
          Revokes(EventAt(c, from[k]), group, address, permission)
      ensures HasEvent(c, from[k])
    {
      PrecedesIff(from, j, k);
    }
    if GainsLast(es, j, group, address, permission) {
      forall r | HasEvent(c, r) && Precedes(from[j], r)
        ensures !Revokes(EventAt(c, r), group, address, permission)
      {
        assert r in from;
        var k :| 0 <= k < |from| && from[k] == r;
      }
    }
  }

  /** On an empty cache, a checkpoint gives a permission exactly when, reading its transactions in
      order, the last add or remove of the member is an add and a later event grants the permission
      without being taken back. */
  lemma HeldAfterCheckpointIff(c: Checkpoint, group: string, address: string, permission: Permission)
    ensures Holds(ApplyEvents(map[], EventsOf(c)), group, address, permission) <==>
            exists p, q ::
              Precedes(p, q) && EntersAt(c, p, group, address) && GrantsAt(c, q, group, address, permission)
  {
    var es := EventsOf(c);
    var from := EventsInOrder(c);
    HasPermissionIff(es, group, address, permission);
    if i: nat, j: nat :| i < j && EntersLast(es, i, group, address, permission)
                         && GainsLast(es, j, group, address, permission)
    {
      EntersAtIff(c, from, es, i, group, address, permission);
      GrantsAtIff(c, from, es, j, group, address, permission);
      PrecedesIff(from, i, j);
      assert Precedes(from[i], from[j]);
    }
    if p, q :| Precedes(p, q) && EntersAt(c, p, group, address) && GrantsAt(c, q, group, address, permission) {
      assert p in from && q in from;
      var i: nat :| i < |from| && from[i] == p;
      var j: nat :| j < |from| && from[j] == q;
      EntersAtIff(c, from, es, i, group, address, permission);
      GrantsAtIff(c, from, es, j, group, address, permission);
      PrecedesIff(from, i, j);
    }
  }

  /** A permission granted in a later transaction than the add is held, if nothing else in the
      checkpoint is about the member. */
  lemma LaterGrantIsHeld(c: Checkpoint, p: Position, q: Position, group: string, address: string,
                         permission: Permission)
    requires HasEvent(c, p) && EventAt(c, p) == MemberAdded(group, address)
    requires HasEvent(c, q) && Grants(EventAt(c, q), group, address, permission) && p.row < q.row
    requires forall r :: HasEvent(c, r) && r != p && r != q ==> !About(EventAt(c, r), group, address)
    ensures Holds(ApplyEvents(map[], EventsOf(c)), group, address, permission)
  {
    HeldAfterCheckpointIff(c, group, address, permission);
    assert Precedes(p, q) && EntersAt(c, p, group, address) && GrantsAt(c, q, group, address, permission);
  }

  /** One granted in an earlier transaction than the add is not. */
  lemma EarlierGrantIsLost(c: Checkpoint, p: Position, group: string, address: string, permission: Permission)
    requires HasEvent(c, p) && EventAt(c, p) == MemberAdded(group, address)
    requires forall q :: HasEvent(c, q) && Grants(EventAt(c, q), group, address, permission) ==> q.row < p.row
    ensures !Holds(ApplyEvents(map[], EventsOf(c)), group, address, permission)
  {
    HeldAfterCheckpointIff(c, group, address, permission);
  }

  // ---- Items of a connection, and connections ----

  /** The delivery is the item's: without a cursor it counts as 0, without a checkpoint it is empty. */
  predicate Fits(d: Delivery, item: StreamItem) {
    && item.Received?
    && d.cursor == (if item.cursor.None? then 0 else item.cursor.value)
    && d.events == (if item.checkpoint.None? then [] else EventsOf(item.checkpoint.value))
  }

  /** A connection delivers its items in order, up to the first break. */
  lemma {:induction false} DeliveredAreItems(items: seq<StreamItem>)
    ensures |Delivered(items)| <= |items|
    ensures forall k :: 0 <= k < |Delivered(items)| ==> Fits(Delivered(items)[k], items[k])
    ensures |Delivered(items)| < |items| ==> items[|Delivered(items)|].Broken?
  {
    if items != [] && items[0].Received? {
      DeliveredAreItems(items[1..]);
    }
  }

  /** A connection that opened, and an item that nothing broken comes before. */
  ghost predicate Arrives(sessions: seq<Session>, p: Position) {
    && p.row < |sessions| && sessions[p.row].opens && p.column < |sessions[p.row].items|
    && forall k :: 0 <= k <= p.column ==> sessions[p.row].items[k].Received?
  }

  ghost predicate ArrivalPositions(sessions: seq<Session>, from: seq<Position>) {
    InOrder(from) && forall p {:trigger p in from} :: p in from <==> Arrives(sessions, p)
  }

  ghost predicate ArrivesAs(sessions: seq<Session>, p: Position, d: Delivery) {
    Arrives(sessions, p) && Fits(d, sessions[p.row].items[p.column])
  }

  ghost predicate ArrivedFrom(sessions: seq<Session>, from: seq<Position>, ds: seq<Delivery>) {
    && |ds| == |from|
    && forall k :: 0 <= k < |from| ==> ArrivesAs(sessions, from[k], ds[k])
  }

  lemma EarlierSessions(sessions: seq<Session>, p: Position, d: Delivery)
    requires sessions != []
    ensures Arrives(sessions[..|sessions| - 1], p) <==> Arrives(sessions, p) && p.row < |sessions| - 1
    ensures ArrivesAs(sessions[..|sessions| - 1], p, d) ==> ArrivesAs(sessions, p, d)
  {
  }

  lemma ArrivedConcat(sessions: seq<Session>, from: seq<Position>, ds: seq<Delivery>, later: seq<Position>,
                      es: seq<Delivery>)
    requires ArrivedFrom(sessions, from, ds) && ArrivedFrom(sessions, later, es)
    ensures ArrivedFrom(sessions, from + later, ds + es)
  {
  }

  function FirstColumns(n: nat): seq<nat> {
    seq(n, k requires 0 <= k < n => k)
  }

  lemma LastSession(sessions: seq<Session>)
    requires sessions != []
    ensures var row: nat, ds := |sessions| - 1, SessionDeliveries(sessions[|sessions| - 1]);
            && (forall i: nat :: i < |ds| <==> Arrives(sessions, Position(row, i)))
            && ArrivedFrom(sessions, RowOf(FirstColumns(|ds|), row), ds)
  {
    DeliveredAreItems(sessions[|sessions| - 1].items);
  }

  lemma NextArrivals(sessions: seq<Session>, before: seq<Position>, count: nat)
    requires sessions != [] && ArrivalPositions(sessions[..|sessions| - 1], before)
    requires var row: nat := |sessions| - 1; forall i: nat :: i < count <==> Arrives(sessions, Position(row, i))
    ensures ArrivalPositions(sessions, before + RowOf(FirstColumns(count), |sessions| - 1))
  {
    var n: nat := |sessions| - 1;
    forall p
      ensures p in before <==> Arrives(sessions, p) && p.row < n
    {
      EarlierSessions(sessions, p, Delivery(0, []));
    }
    NextRow(before, FirstColumns(count), n);
    forall p
      ensures p in before + RowOf(FirstColumns(count), n) <==> Arrives(sessions, p)
    {
      InRowIff(FirstColumns(count), n, p);
      assert p.column < count ==> FirstColumns(count)[p.column] == p.column;
      assert p.row == n ==> p == Position(n, p.column);
    }
  }

  lemma EarlierArrived(sessions: seq<Session>, before: seq<Position>, ds: seq<Delivery>)
    requires sessions != [] && ArrivedFrom(sessions[..|sessions| - 1], before, ds)
    ensures ArrivedFrom(sessions, before, ds)
  {
    forall k | 0 <= k < |before|
      ensures ArrivesAs(sessions, before[k], ds[k])
    {
      EarlierSessions(sessions, before[k], ds[k]);
    }
  }

  /** Where every delivery comes from: connection after connection, item after item. */
  lemma {:induction false} DeliveriesInOrder(sessions: seq<Session>) returns (from: seq<Position>)
    ensures ArrivalPositions(sessions, from) && ArrivedFrom(sessions, from, AllDeliveries(sessions))
  {
    from := [];
    if sessions != [] {
      var n: nat := |sessions| - 1;
      var before := DeliveriesInOrder(sessions[..n]);
      LastSession(sessions);
      NextArrivals(sessions, before, |SessionDeliveries(sessions[n])|);
      EarlierArrived(sessions, before, AllDeliveries(sessions[..n]));
      var last := RowOf(FirstColumns(|SessionDeliveries(sessions[n])|), n);
      ArrivedConcat(sessions, before, AllDeliveries(sessions[..n]), last, SessionDeliveries(sessions[n]));
      from := before + last;
    }
  }
}
