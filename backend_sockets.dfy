/**
 * The earlier fan-out of the backend (backend/src/components/websocket.ts):
 * one `forEach` over the server's clients that forwards a payload, as is, to
 * every other connection bound to the same room. The sends are returned in
 * iteration order instead of being written to sockets.
 */
module BackendSockets {
  import opened Common
  import opened Sockets

  /** One `client.send(message)`. */
  datatype Delivery<T> = Delivery(to: nat, payload: T)

  /** The connections a list of deliveries reaches, in order. */
  function Targets<T>(ds: seq<Delivery<T>>): (ids: seq<nat>)
    ensures |ids| == |ds|
    ensures forall k :: 0 <= k < |ds| ==> ids[k] == ds[k].to
  {
    seq(|ds|, k requires 0 <= k < |ds| => ds[k].to)
  }

  /**
   * `sendMessageToRoom(webSocketServer, webSocket, roomId, message)`. The
   * recipients are exactly the room's connections other than the sender, each
   * once when identities are distinct, and each gets the payload unchanged.
   */
  method SendMessageToRoom<T>(clients: seq<Socket>, webSocket: Socket, roomId: string, message: T)
    returns (deliveries: seq<Delivery<T>>)
    ensures Targets(deliveries) == Recipients(clients, roomId, Some(webSocket.id))
    ensures forall k :: 0 <= k < |deliveries| ==> deliveries[k].payload == message
    ensures forall k :: 0 <= k < |deliveries| ==> deliveries[k].to != webSocket.id
    ensures forall k :: 0 <= k < |deliveries| ==>
      exists i :: 0 <= i < |clients| && clients[i].id == deliveries[k].to && InRoom(clients[i], roomId)
    ensures DistinctIds(clients) ==> NoDuplicates(Targets(deliveries))
  {
    deliveries := [];
    var i := 0;
    while i < |clients|
      invariant 0 <= i <= |clients|
      invariant Targets(deliveries) == Recipients(clients[..i], roomId, Some(webSocket.id))
      invariant forall k :: 0 <= k < |deliveries| ==> deliveries[k].payload == message
    {
      RecipientsStep(clients, i, roomId, Some(webSocket.id));
      var client := clients[i];
      if client.id != webSocket.id && client.roomId == Some(roomId) {
        assert Targets(deliveries + [Delivery(client.id, message)]) == Targets(deliveries) + [client.id];
        deliveries := deliveries + [Delivery(client.id, message)];
      } else {
        assert Recipients(clients[..i + 1], roomId, Some(webSocket.id)) == Targets(deliveries);
      }
      i := i + 1;
    }
    assert clients[..i] == clients;
    forall k | 0 <= k < |deliveries|
      ensures deliveries[k].to != webSocket.id
      ensures exists i :: 0 <= i < |clients| && clients[i].id == deliveries[k].to && InRoom(clients[i], roomId)
    {
      assert Targets(deliveries)[k] == deliveries[k].to;
      RecipientsExactly(clients, roomId, Some(webSocket.id), deliveries[k].to);
    }
    if DistinctIds(clients) {
      RecipientsOnce(clients, roomId, Some(webSocket.id));
    }
  }
}
