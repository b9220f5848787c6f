/**
 * Connections as the server sees them. The `ws` library object is reduced to
 * the fields the server attaches to it (server/src/types/WebSocket.ts, plus
 * `username`, which server/src/components/websocket.ts assigns), and every
 * call the server makes on a socket (`send`, `close`, `terminate`, `ping`)
 * becomes an `Effect` appended to an output log.
 */
module Sockets {
  import opened Common
  import opened Messages

  /** One connection. `id` stands for object identity (`client !== webSocket`). */
  datatype Socket = Socket(id: nat, roomId: Option<string>, username: Option<string>, isAlive: bool)

  datatype Effect =
    | Send(to: nat, msg: WebSocketMessage)
    | Close(target: nat)
    | Terminate(target: nat)
    | Ping(target: nat)

  /** No two connections share an identity. */
  ghost predicate DistinctIds(cs: seq<Socket>)
  {
    forall i, j :: 0 <= i < j < |cs| ==> cs[i].id != cs[j].id
  }

  /** `client.roomId === roomId`: an unbound connection matches no room. */
  predicate InRoom(c: Socket, roomId: string)
  {
    c.roomId == Some(roomId)
  }

  /**
   * `sendError(webSocket, message)`: one JSON frame to that connection only,
   * an error event whose `message` is the text, with no other field set.
   */
  function SendError(ws: Socket, text: string): (e: Effect)
    ensures e.Send? && e.to == ws.id
    ensures e.msg.event == Error && e.msg.message == Some(text)
    ensures e.msg.username.None? && e.msg.code.None? && e.msg.language.None?
  {
    Send(ws.id, ErrorMessage(text))
  }

  /**
   * The connections a `forEach` over the clients sends to, in iteration
   * order: those bound to `roomId`, except the one named by `except`.
   */
  function Recipients(cs: seq<Socket>, roomId: string, except: Option<nat>): (ids: seq<nat>)
    ensures |ids| <= |cs|
  {
    if cs == [] then []
    else
      var last := cs[|cs| - 1];
      Recipients(cs[..|cs| - 1], roomId, except)
        + (if InRoom(last, roomId) && Some(last.id) != except then [last.id] else [])
  }

  /**
   * One `send` of `m` per recipient, in order: a send of `m'` to `x` occurs
   * exactly when `x` is a recipient and `m'` is `m`.
   */
  function Sends(ids: seq<nat>, m: WebSocketMessage): (effects: seq<Effect>)
    ensures |effects| == |ids|
    ensures forall k :: 0 <= k < |ids| ==> effects[k] == Send(ids[k], m)
    ensures forall x, m' :: Send(x, m') in effects <==> x in ids && m' == m
  {
    var effects := seq(|ids|, k requires 0 <= k < |ids| => Send(ids[k], m));
    assert forall k :: 0 <= k < |ids| ==> effects[k] == Send(ids[k], m);
    effects
  }

  /** Recipients are exactly the room's connections other than the excluded one. */
  lemma {:induction false} RecipientsExactly(cs: seq<Socket>, roomId: string, except: Option<nat>, x: nat)
    ensures x in Recipients(cs, roomId, except) <==>
            (exists i :: 0 <= i < |cs| && cs[i].id == x && InRoom(cs[i], roomId)) && Some(x) != except
  {
    if cs != [] {
      var front := cs[..|cs| - 1];
      RecipientsExactly(front, roomId, except, x);
      assert forall i :: 0 <= i < |front| ==> front[i] == cs[i];
    }
  }

  /** With distinct identities, every recipient is sent to exactly once. */
  lemma {:induction false} RecipientsOnce(cs: seq<Socket>, roomId: string, except: Option<nat>)
    requires DistinctIds(cs)
    ensures NoDuplicates(Recipients(cs, roomId, except))
  {
    if cs != [] {
      var front := cs[..|cs| - 1];
      var last := cs[|cs| - 1];
      assert DistinctIds(front) by {
        forall i, j | 0 <= i < j < |front| ensures front[i].id != front[j].id {
          assert front[i] == cs[i] && front[j] == cs[j];
        }
      }
      RecipientsOnce(front, roomId, except);
      var r := Recipients(front, roomId, except);
      if InRoom(last, roomId) && Some(last.id) != except {
        assert last.id !in r by {
          RecipientsExactly(front, roomId, except, last.id);
          assert forall i :: 0 <= i < |front| ==> front[i] == cs[i];
        }
        var s := r + [last.id];
        forall i, j | 0 <= i < j < |s| ensures s[i] != s[j] {
          if j == |s| - 1 {
            assert s[i] == r[i];
          } else {
            assert s[i] == r[i] && s[j] == r[j];
          }
        }
      } else {
        assert Recipients(cs, roomId, except) == r;
      }
    }
  }

  /** Excluding one connection removes exactly that connection from the room's recipients. */
  lemma {:induction false} RecipientsExcept(cs: seq<Socket>, roomId: string, x: nat)
    ensures Recipients(cs, roomId, Some(x)) == RemoveAll(Recipients(cs, roomId, None), x)
  {
    if cs != [] {
      var front := cs[..|cs| - 1];
      var last := cs[|cs| - 1];
      RecipientsExcept(front, roomId, x);
      var tail := if InRoom(last, roomId) then [last.id] else [];
      RemoveAllAppend(Recipients(front, roomId, None), tail, x);
      if InRoom(last, roomId) {
        assert RemoveAll(tail, x) == (if last.id == x then [] else [last.id]) by {
          assert tail[1..] == [];
        }
      }
    }
  }

  /** Extending the iterated prefix by one connection adds at most that connection. */
  lemma RecipientsStep(cs: seq<Socket>, i: nat, roomId: string, except: Option<nat>)
    requires i < |cs|
    ensures Recipients(cs[..i + 1], roomId, except) == Recipients(cs[..i], roomId, except)
      + (if InRoom(cs[i], roomId) && Some(cs[i].id) != except then [cs[i].id] else [])
  {
    assert cs[..i + 1][..i] == cs[..i];
  }
}
