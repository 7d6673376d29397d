/**
 * The broadcast half of `gameLoop`: the `gameState` message each player
 * with a body is sent, built from the views of all players, the food near
 * the recipient's head and the current leaderboard.
 */
module Broadcast {
  import opened Config
  import opened Entities
  import opened Feeding

  /** The message for a recipient whose head is at `head`. */
  function SnapshotAt(views: seq<PlayerView>, food: seq<Food>, board: seq<Entry>, head: Point): (r: Snapshot)
  {
    Snapshot(views, NearbyFood(food, head), board, MapRadius)
  }

  /** The messages sent to the players among `to`, in order, skipping any whose body is empty. */
  function Outbox(to: seq<PlayerView>, views: seq<PlayerView>, food: seq<Food>, board: seq<Entry>): (r: seq<Outgoing>)
    ensures |r| <= |to|
  {
    if to == [] then []
    else
      var v := to[|to| - 1];
      Outbox(to[..|to| - 1], views, food, board)
        + (if |v.segments| > 0 then [Outgoing(v.id, SnapshotAt(views, food, board, v.segments[0]))] else [])
  }

  /** When every player has a body, each one receives exactly one message, in order, about its own head. */
  lemma {:induction false} OutboxAll(to: seq<PlayerView>, views: seq<PlayerView>, food: seq<Food>, board: seq<Entry>)
    requires forall i :: 0 <= i < |to| ==> |to[i].segments| > 0
    ensures |Outbox(to, views, food, board)| == |to|
    ensures forall i :: 0 <= i < |to| ==>
      Outbox(to, views, food, board)[i] == Outgoing(to[i].id, SnapshotAt(views, food, board, to[i].segments[0]))
  {
    if to != [] {
      var init := to[..|to| - 1];
      OutboxAll(init, views, food, board);
      var r := Outbox(to, views, food, board);
      forall i | 0 <= i < |to|
        ensures r[i] == Outgoing(to[i].id, SnapshotAt(views, food, board, to[i].segments[0]))
      {
        if i < |init| {
          assert to[i] == init[i];
        }
      }
    }
  }

  /** Every message goes to a listed player with a body and carries the food near that player's head. */
  lemma {:induction false} OutboxSound(to: seq<PlayerView>, views: seq<PlayerView>, food: seq<Food>, board: seq<Entry>, k: int)
    requires 0 <= k < |Outbox(to, views, food, board)|
    ensures exists i :: (0 <= i < |to| && |to[i].segments| > 0
      && Outbox(to, views, food, board)[k] == Outgoing(to[i].id, SnapshotAt(views, food, board, to[i].segments[0])))
  {
    var init := to[..|to| - 1];
    var r := Outbox(to, views, food, board);
    if k < |Outbox(init, views, food, board)| {
      OutboxSound(init, views, food, board, k);
      var i :| 0 <= i < |init| && |init[i].segments| > 0
        && Outbox(init, views, food, board)[k] == Outgoing(init[i].id, SnapshotAt(views, food, board, init[i].segments[0]));
      assert to[i] == init[i];
    } else {
      assert r[k] == Outgoing(to[|to| - 1].id, SnapshotAt(views, food, board, to[|to| - 1].segments[0]));
    }
  }

  /** The ids of the players among `to` that have a body, in order. */
  function Addressees(to: seq<PlayerView>): (ids: seq<Id>)
    ensures |ids| <= |to|
  {
    if to == [] then []
    else
      var v := to[|to| - 1];
      Addressees(to[..|to| - 1]) + (if |v.segments| > 0 then [v.id] else [])
  }

  /** The k-th message goes to the k-th player with a body. */
  lemma {:induction false} OutboxAddressees(to: seq<PlayerView>, views: seq<PlayerView>, food: seq<Food>, board: seq<Entry>)
    ensures var r := Outbox(to, views, food, board);
      |r| == |Addressees(to)| && forall k :: 0 <= k < |r| ==> r[k].to == Addressees(to)[k]
  {
    if to != [] {
      OutboxAddressees(to[..|to| - 1], views, food, board);
    }
  }

  /** Every addressee is one of the listed players. */
  lemma {:induction false} AddresseesListed(to: seq<PlayerView>, x: Id)
    requires x in Addressees(to)
    ensures exists i :: 0 <= i < |to| && to[i].id == x
  {
    var init := to[..|to| - 1];
    if x in Addressees(init) {
      AddresseesListed(init, x);
      var i :| 0 <= i < |init| && init[i].id == x;
      assert to[i] == init[i];
    } else {
      assert to[|to| - 1].id == x;
    }
  }

  /** Players with distinct ids are addressed at most once each. */
  lemma {:induction false} AddresseesDistinct(to: seq<PlayerView>)
    requires forall i, j :: 0 <= i < j < |to| ==> to[i].id != to[j].id
    ensures Distinct(Addressees(to))
  {
    if to != [] {
      var init := to[..|to| - 1];
      var last := to[|to| - 1];
      assert forall i :: 0 <= i < |init| ==> init[i] == to[i];
      AddresseesDistinct(init);
      if last.id in Addressees(init) {
        AddresseesListed(init, last.id);
        assert false;
      }
      var a := Addressees(init);
      var b := Addressees(to);
      forall k, l | 0 <= k < l < |b| ensures b[k] != b[l] {
        if l >= |a| {
          assert b[k] == a[k] && b[k] in a;
        } else {
          assert b[k] == a[k] && b[l] == a[l];
        }
      }
    }
  }

  /** When the listed players have distinct ids, no player receives two messages. */
  lemma OutboxOnce(to: seq<PlayerView>, views: seq<PlayerView>, food: seq<Food>, board: seq<Entry>)
    requires forall i, j :: 0 <= i < j < |to| ==> to[i].id != to[j].id
    ensures var r := Outbox(to, views, food, board);
      forall k, l :: 0 <= k < l < |r| ==> r[k].to != r[l].to
  {
    OutboxAddressees(to, views, food, board);
    AddresseesDistinct(to);
  }

  /** The per-recipient loop of the broadcast. */
  method BuildSnapshots(views: seq<PlayerView>, food: seq<Food>, board: seq<Entry>) returns (sent: seq<Outgoing>)
    ensures sent == Outbox(views, views, food, board)
  {
    sent := [];
    var i := 0;
    while i < |views|
      invariant 0 <= i <= |views|
      invariant sent == Outbox(views[..i], views, food, board)
    {
      var me := views[i];
      assert views[..i + 1][..i] == views[..i];
      if |me.segments| > 0 {
        sent := sent + [Outgoing(me.id, SnapshotAt(views, food, board, me.segments[0]))];
      }
      i := i + 1;
    }
    assert views[..i] == views;
  }
}
