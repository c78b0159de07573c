/** What the sync worker sends to Walrus and what the publisher answers. */
module Walrus {
  import opened Wrappers
  import opened Messages

  const MSG_PREFIX: string := "msg-"

  function Identifier(id: Uuid): string { MSG_PREFIX + id.text }

  lemma IdentifierInjective(a: Uuid, b: Uuid)
    requires Identifier(a) == Identifier(b)
    ensures a == b
  {
    assert a.text == Identifier(a)[4..] && b.text == Identifier(b)[4..];
  }

  /** The copy that is serialized: it already carries the status it is about to reach. */
  function ForWalrus(m: Message): Message {
    m.(syncStatus := Target(m.syncStatus))
  }

  datatype StoredPatch = StoredPatch(identifier: string, patchId: PatchId)

  /** Entry `k` is the first with this identifier. */
  ghost predicate FirstWith(response: seq<StoredPatch>, identifier: string, k: nat)
    requires k < |response|
  {
    response[k].identifier == identifier && forall j :: 0 <= j < k ==> response[j].identifier != identifier
  }

  /** The first entry with this identifier has this patch id. */
  ghost predicate LeadsTo(response: seq<StoredPatch>, identifier: string, patchId: PatchId) {
    exists k: nat :: k < |response| && FirstWith(response, identifier, k) && response[k].patchId == patchId
  }

  /** `get_patch_id`: the first entry with this identifier. */
  function GetPatchId(response: seq<StoredPatch>, identifier: string): (r: Option<PatchId>)
    ensures r.None? <==> forall sp :: sp in response ==> sp.identifier != identifier
    ensures r.Some? ==> StoredPatch(identifier, r.value) in response
    ensures r.Some? ==> LeadsTo(response, identifier, r.value)
  {
    if response == [] then None
    else if response[0].identifier == identifier then
      assert FirstWith(response, identifier, 0);
      assert response[0] == StoredPatch(identifier, response[0].patchId);
      Some(response[0].patchId)
    else
      assert forall sp :: sp in response <==> sp == response[0] || sp in response[1..];
      var r := GetPatchId(response[1..], identifier);
      assert r.Some? ==> LeadsTo(response, identifier, r.value) by {
        if r.Some? {
          LaterFirst(response, identifier, r.value);
        }
      }
      r
  }

  lemma LaterFirst(response: seq<StoredPatch>, identifier: string, patchId: PatchId)
    requires response != [] && response[0].identifier != identifier && LeadsTo(response[1..], identifier, patchId)
    ensures LeadsTo(response, identifier, patchId)
  {
    var k: nat :| k < |response[1..]| && FirstWith(response[1..], identifier, k) && response[1..][k].patchId == patchId;
    forall j | 0 <= j < k + 1
      ensures response[j].identifier != identifier
    {
      assert j > 0 ==> response[j] == response[1..][j - 1];
    }
    assert FirstWith(response, identifier, k + 1);
  }
}
