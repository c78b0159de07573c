/** The in-memory storage object: three collections and messages mutated in place.
    Each lock acquisition of the original is one atomic method here. */
module Storage {
  import opened Wrappers
  import opened Hex
  import opened Messages
  import opened Stores

  class InMemoryStorage {
    var messages: map<Uuid, StoredMessage>
    var groupOrders: map<string, int>
    var nonces: set<Bytes>

    /** Clones of everything stored. */
    ghost var Contents: Store

    /** The fields say what `Contents` says; distinct ids are distinct records. */
    ghost predicate Linked()
      reads this, messages.Values
    {
      && Contents.groupOrders == groupOrders
      && Contents.nonces == nonces
      && Contents.messages.Keys == messages.Keys
      && forall id :: id in messages ==> messages[id].id == id && messages[id].Value() == Contents.messages[id]
    }

    ghost predicate Valid()
      reads this, messages.Values
    {
      Linked() && Consistent(Contents)
    }

    constructor ()
      ensures Valid() && fresh(messages.Values)
      ensures Contents == EMPTY_STORE
    {
      messages, groupOrders, nonces := map[], map[], {};
      Contents := EMPTY_STORE;
    }

    /** First lock: a number of the group is taken. */
    method NextOrder(groupId: string) returns (next: int)
      requires Valid()
      modifies this`groupOrders, this`Contents
      ensures Valid()
      ensures Contents == ReserveOrder(old(Contents), groupId)
      ensures next == Counter(Contents, groupId)
    {
      assert Consistent(ReserveOrder(Contents, groupId)) by { ReserveKeepsConsistent(Contents, groupId); }
      next := if groupId in groupOrders then groupOrders[groupId] + 1 else 1;
      groupOrders := groupOrders[groupId := next];
      Contents := ReserveOrder(Contents, groupId);
    }

    /** Second lock: the message is stored under the number it has taken, which nobody else holds. */
    method InsertMessage(message: StoredMessage) returns (r: Result<Message, StorageError>)
      requires Valid() && message !in messages.Values
      requires HoldsOrder(Contents, message.Value())
      modifies this`messages, this`nonces, this`Contents
      ensures Valid() && messages.Values <= old(messages.Values) + {message}
      ensures match CommitMessage(old(Contents), message.Value())
              case Ok(s') => Contents == s' && r == Ok(message.Value())
              case Err(e) => Contents == old(Contents) && r == Err(e)
    {
      if message.id in messages {
        return Err(DuplicateId(message.id));
      }
      if message.content.nonce in nonces {
        return Err(DuplicateNonce);
      }
      ghost var next := CommitMessage(Contents, message.Value()).value;
      assert Consistent(next) by { CommitKeepsConsistent(Contents, message.Value()); }
      nonces := nonces + {message.content.nonce};
      messages := messages[message.id := message];
      Contents := next;
      r := Ok(message.Value());
    }

    /** The whole call, made by one caller alone; `message` is the caller's own record. */
    method CreateMessage(message: StoredMessage) returns (r: Result<Message, StorageError>)
      requires Valid() && message !in messages.Values
      modifies this, message
      ensures Valid() && messages.Values <= old(messages.Values) + {message}
      ensures Contents == Stores.CreateMessage(old(Contents), old(message.Value()))
      ensures message.Value() == WithOrder(old(message.Value()), Counter(Contents, message.groupId))
      ensures r == var reserved := ReserveOrder(old(Contents), message.groupId);
                   match CommitMessage(reserved, message.Value())
                   case Ok(_) => Ok(message.Value())
                   case Err(e) => Err(e)
    {
      ghost var reserved := ReserveOrder(Contents, message.groupId);
      assert HoldsOrder(reserved, WithOrder(message.Value(), Counter(reserved, message.groupId))) by {
        ReserveKeepsConsistent(Contents, message.groupId);
      }
      var order := NextOrder(message.groupId);
      message.SetOrder(order);
      r := InsertMessage(message);
    }

    method GetMessage(id: Uuid) returns (r: Result<Message, StorageError>)
      requires Valid()
      ensures r == if id in Contents.messages then Ok(Contents.messages[id]) else Err(NotFound(id))
    {
      if id in messages {
        r := Ok(messages[id].Value());
      } else {
        r := Err(NotFound(id));
      }
    }

    /** `HashMap::values`: every entry once, in no particular order. */
    method Walk() returns (walk: seq<Uuid>)
      requires Linked()
      ensures IsWalk(Contents, walk)
    {
      walk := [];
      var remaining := messages.Keys;
      while remaining != {}
        invariant remaining <= messages.Keys
        invariant forall id :: id in walk <==> id in messages && id !in remaining
        invariant NoRepeats(walk)
        decreases |remaining|
      {
        var id :| id in remaining;
        walk := walk + [id];
        remaining := remaining - {id};
      }
    }

    method GetMessagesByGroup(groupId: string, after: Option<int>, before: Option<int>, limit: nat)
      returns (page: seq<Message>)
      requires Valid()
      ensures IsPage(Contents, groupId, after, before, limit, page)
    {
      var walk := Walk();
      var filtered: seq<Message> := [];
      for i := 0 to |walk|
        invariant filtered == Select(Contents, walk[..i], MatchingIds(Contents, groupId, after, before))
      {
        assert walk[i] in walk;
        SelectNext(Contents, walk, MatchingIds(Contents, groupId, after, before), i, limit);
        var m := messages[walk[i]].Value();
        if Matches(m, groupId, after, before) {
          filtered := filtered + [m];
        }
      }
      assert walk[..|walk|] == walk;
      page := Truncate(SortByOrder(filtered), limit);
      assert IsPage(Contents, groupId, after, before, limit, page) by {
        QueryIsPage(Contents, walk, groupId, after, before, limit);
      }
    }

    // ---- Writes to one stored record; what they keep of the fields needs no more than `Linked` ----

    method EditRecord(id: Uuid, content: Content, now: Timestamp)
      requires Linked() && Stores.UpdateMessage(Contents, id, content, now).Ok?
      modifies this`nonces, this`Contents, messages.Values
      ensures Linked() && Contents == Stores.UpdateMessage(old(Contents), id, content, now).value
    {
      var message := messages[id];
      Contents := Stores.UpdateMessage(Contents, id, content, now).value;
      nonces := nonces - {message.content.nonce};
      nonces := nonces + {content.nonce};
      message.UpdateContent(content, now);
    }

    method DeleteRecord(id: Uuid, now: Timestamp)
      requires Linked() && id in messages
      modifies this`Contents, messages.Values
      ensures Linked() && Contents == Stores.DeleteMessage(old(Contents), id, now).value
    {
      Contents := Stores.DeleteMessage(Contents, id, now).value;
      messages[id].MarkForDeletion(now);
    }

    method SetRecordStatus(id: Uuid, status: SyncStatus, patchId: Option<PatchId>, now: Timestamp)
      requires Linked() && id in messages
      modifies this`Contents, messages.Values
      ensures Linked() && Contents == Stores.UpdateSyncStatus(old(Contents), id, status, patchId, now).value
    {
      Contents := Stores.UpdateSyncStatus(Contents, id, status, patchId, now).value;
      messages[id].SetSyncStatus(status, patchId, now);
    }

    method UpdateMessage(id: Uuid, content: Content, now: Timestamp) returns (r: Result<Message, StorageError>)
      requires Valid()
      modifies this`nonces, this`Contents, messages.Values
      ensures Valid()
      ensures match Stores.UpdateMessage(old(Contents), id, content, now)
              case Ok(s') => Contents == s' && r == Ok(s'.messages[id])
              case Err(e) => Contents == old(Contents) && r == Err(e)
    {
      if id !in messages {
        return Err(NotFound(id));
      }
      if messages[id].content.nonce != content.nonce && content.nonce in nonces {
        return Err(DuplicateNonce);
      }
      UpdateKeepsConsistent(Contents, id, content, now);
      EditRecord(id, content, now);
      r := Ok(messages[id].Value());
    }

    method DeleteMessage(id: Uuid, now: Timestamp) returns (r: Result<Message, StorageError>)
      requires Valid()
      modifies this`Contents, messages.Values
      ensures Valid()
      ensures match Stores.DeleteMessage(old(Contents), id, now)
              case Ok(s') => Contents == s' && r == Ok(s'.messages[id])
              case Err(e) => Contents == old(Contents) && r == Err(e)
    {
      if id !in messages {
        return Err(NotFound(id));
      }
      SameContentsKeepConsistent(Contents, Stores.DeleteMessage(Contents, id, now).value);
      DeleteRecord(id, now);
      r := Ok(messages[id].Value());
    }

    method UpdateSyncStatus(id: Uuid, status: SyncStatus, patchId: Option<PatchId>, now: Timestamp)
      returns (r: Result<Message, StorageError>)
      requires Valid()
      modifies this`Contents, messages.Values
      ensures Valid()
      ensures match Stores.UpdateSyncStatus(old(Contents), id, status, patchId, now)
              case Ok(s') => Contents == s' && r == Ok(s'.messages[id])
              case Err(e) => Contents == old(Contents) && r == Err(e)
    {
      if id !in messages {
        return Err(NotFound(id));
      }
      SameContentsKeepConsistent(Contents, Stores.UpdateSyncStatus(Contents, id, status, patchId, now).value);
      SetRecordStatus(id, status, patchId, now);
      r := Ok(messages[id].Value());
    }

    method GetMessagesBySyncStatus(status: SyncStatus, limit: nat) returns (batch: seq<Message>)
      requires Valid()
      ensures IsBatch(Contents, status, limit, batch)
    {
      var walk := Walk();
      batch := [];
      for i := 0 to |walk|
        invariant batch == Truncate(Select(Contents, walk[..i], InStatus(Contents, status)), limit)
      {
        assert walk[i] in walk;
        SelectNext(Contents, walk, InStatus(Contents, status), i, limit);
        var m := messages[walk[i]].Value();
        if |batch| < limit && m.syncStatus == status {
          batch := batch + [m];
        }
      }
      assert walk[..|walk|] == walk;
      assert IsBatch(Contents, status, limit, batch) by {
        TakenIsBatch(Contents, walk, status, limit);
      }
    }
  }
}
