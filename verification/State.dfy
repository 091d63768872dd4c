/**
  src/state.rs: the shared map of online users over mutable channels and alive flags.
 */
module State {
  import opened Base
  import opened OnlineUsers

  /** The channel handle and alive flag of one WebSocket connection. */
  class Connection {
    const owner: Uid
    var queue: seq<Frame>
    var open: bool
    var alive: bool
    ghost var accepted: seq<Frame>
    ghost var senders: int

    ghost function Value(): Chan
      reads this
    {
      Chan(owner, queue, accepted, open, alive, senders)
    }

    constructor (uid: Uid)
      ensures Value() == NewChan(uid)
    {
      owner := uid;
      queue, open, alive := [], true, true;
      accepted, senders := [], 3;
    }

    /** `tx.send(f)`. */
    method Send(f: Frame) returns (ok: bool)
      modifies this
      ensures ok == old(open)
      ensures Value() == Enqueue(old(Value()), f)
    {
      if open {
        queue, accepted := queue + [f], accepted + [f];
      }
      return open;
    }
  }

  class AppState {
    var onlineUsers: map<Uid, Connection>
    ghost var connections: seq<Connection>
    ghost var index: map<Uid, nat>

    ghost predicate Linked()
      reads this
    {
      && (forall i, j :: 0 <= i < j < |connections| ==> connections[i] != connections[j])
      && index.Keys == onlineUsers.Keys
      && (forall u :: u in index ==> index[u] < |connections| && connections[index[u]] == onlineUsers[u])
    }

    /** The registry value: all channels ever inserted, and the entries. */
    ghost function View(): (r: Registry)
      reads this, connections
      ensures |r.chans| == |connections| && r.online == index
      ensures forall i :: 0 <= i < |connections| ==> r.chans[i] == connections[i].Value()
    {
      Registry(
        seq(|connections|, i requires 0 <= i < |connections| reads this, connections => connections[i].Value()),
        index)
    }

    ghost predicate Valid()
      reads this, connections
    {
      Linked() && OnlineUsers.Valid(View())
    }

    constructor ()
      ensures Valid() && View() == OnlineUsers.EMPTY && connections == []
    {
      onlineUsers := map[];
      connections, index := [], map[];
    }

    /** Send on the channel of an existing entry, with the map untouched. */
    method SendOnEntry(uid: Uid, msg: Frame) returns (ok: bool)
      requires Valid() && uid in onlineUsers
      modifies onlineUsers[uid]
      ensures Valid()
      ensures ok == old(onlineUsers[uid].open)
      ensures View() == SendOn(old(View()), index[uid], msg)
    {
      ok := onlineUsers[uid].Send(msg);
      assert View().chans == SendOn(old(View()), index[uid], msg).chans;
    }

    /** The map's handle of an existing entry is dropped; its alive flag may be lowered with it. */
    method ReleaseEntry(uid: Uid, dead: bool)
      requires Valid() && uid in onlineUsers
      modifies onlineUsers[uid]
      ensures Valid()
      ensures View() == DropSender(if dead then SetDead(old(View()), index[uid]) else old(View()), index[uid])
    {
      hide OnlineUsers.Valid;
      hide Enqueue;
      LoweredValid(View(), index[uid]);
      ghost var lowered := DropSender(if dead then SetDead(View(), index[uid]) else View(), index[uid]);
      var entry := onlineUsers[uid];
      entry.senders := entry.senders - 1;
      if dead {
        entry.alive := false;
      }
      assert View().chans[index[uid]] == lowered.chans[index[uid]];
      assert View().chans == lowered.chans;
    }

    method ForgetEntry(uid: Uid)
      requires Valid()
      modifies this
      ensures Valid() && connections == old(connections)
      ensures View() == old(View()).(online := old(View()).online - {uid})
    {
      onlineUsers, index := onlineUsers - {uid}, index - {uid};
      assert View().chans == old(View()).chans;
    }

    method AddEntry(uid: Uid, conn: Connection)
      requires Valid() && conn !in connections && conn.Value() == NewChan(uid)
      modifies this
      ensures Valid() && connections == old(connections) + [conn]
      ensures View() == Registry(old(View()).chans + [NewChan(uid)], old(View()).online[uid := |old(View()).chans|])
    {
      hide OnlineUsers.Valid;
      NewestIsLast(View(), uid);
      onlineUsers := onlineUsers[uid := conn];
      index := index[uid := |connections|];
      connections := connections + [conn];
      assert View().chans == old(View()).chans + [NewChan(uid)];
    }

    method InsertOnlineUser(uid: Uid, conn: Connection)
      requires Valid() && conn !in connections && conn.Value() == NewChan(uid)
      modifies this, connections
      ensures Valid() && connections == old(connections) + [conn]
      ensures View() == Insert(old(View()), uid)
    {
      hide Enqueue;
      if uid in onlineUsers {
        var _ := SendOnEntry(uid, KICK_FRAME);
        ReleaseEntry(uid, false);
      }
      AddEntry(uid, conn);
    }

    method RemoveOnlineUser(uid: Uid)
      requires Valid()
      modifies this, connections
      ensures Valid() && connections == old(connections)
      ensures View() == Remove(old(View()), uid)
    {
      if uid in onlineUsers {
        ReleaseEntry(uid, false);
      }
      ForgetEntry(uid);
    }

    method SendToUser(uid: Uid, msg: Frame) returns (delivered: bool)
      requires Valid()
      modifies this, connections
      ensures Valid() && connections == old(connections)
      ensures delivered == Deliverable(old(View()), uid)
      ensures View() == OnlineUsers.Send(old(View()), uid, msg)
    {
      if uid !in onlineUsers {
        return false;
      }
      if !onlineUsers[uid].alive {
        RemoveOnlineUser(uid);
        return false;
      }
      delivered := SendOnEntry(uid, msg);
      if !delivered {
        assert View().chans == old(View()).chans;
        ReleaseEntry(uid, true);
        ForgetEntry(uid);
      }
    }
  }
}
