/**
  The online-user registry of src/state.rs as a value: every channel ever created, in
  creation order, and the map from user to the channel of the entry.
 */
module OnlineUsers {
  import opened Base

  /** Which code path enqueued a frame. History only: nothing ever reads it. */
  datatype Origin = Kick | Push | Reply | Sync

  datatype Status = Status(msgId: nat, read: nat, total: int)

  datatype Payload =
    | LoggedInElsewhere
    | ErrorReply(code: nat)
    | PrivatePush(from: Uid, to: Uid, content: string, msgType: nat)
    | PrivateAck(msgId: nat, delivered: bool)
    | GroupPush(gid: Gid, from: Uid, content: string, msgType: nat)
    | GroupAck(msgId: nat)
    | SeenUpdate(ids: seq<nat>, to: Uid)
    | GroupReadUpdate(gid: Gid, statuses: seq<Status>, reader: Uid)

  datatype Frame = Frame(origin: Origin, payload: Payload)

  const KICK_FRAME := Frame(Kick, LoggedInElsewhere)

  /**
    One unbounded channel and the alive flag shared with it. `accepted` is everything ever
    enqueued; `senders` counts the handles held by the reader, the sync task and the map.
   */
  datatype Chan = Chan(owner: Uid, queue: seq<Frame>, accepted: seq<Frame>, open: bool, alive: bool, senders: int)

  datatype Registry = Registry(chans: seq<Chan>, online: map<Uid, nat>)

  const EMPTY := Registry([], map[])

  /** Entries point at channels of their user, and at the newest one. */
  ghost predicate Valid(r: Registry) {
    forall u :: u in r.online ==>
      && r.online[u] < |r.chans|
      && r.chans[r.online[u]].owner == u
      && (forall d :: r.online[u] < d < |r.chans| ==> r.chans[d].owner != u)
  }

  function NewChan(uid: Uid): Chan {
    Chan(uid, [], [], true, true, 3)
  }

  /** `tx.send`: fails without effect once the receiver is dropped. */
  function Enqueue(c: Chan, f: Frame): (d: Chan)
    ensures d.owner == c.owner
  {
    if c.open then c.(queue := c.queue + [f], accepted := c.accepted + [f]) else c
  }

  function SendOn(r: Registry, c: nat, f: Frame): (r': Registry)
    requires c < |r.chans|
    ensures r'.online == r.online && |r'.chans| == |r.chans| && (Valid(r) ==> Valid(r'))
  {
    r.(chans := r.chans[c := Enqueue(r.chans[c], f)])
  }

  function DropSender(r: Registry, c: nat): Registry
    requires c < |r.chans|
  {
    r.(chans := r.chans[c := r.chans[c].(senders := r.chans[c].senders - 1)])
  }

  function SetDead(r: Registry, c: nat): Registry
    requires c < |r.chans|
  {
    r.(chans := r.chans[c := r.chans[c].(alive := false)])
  }

  /** remove_online_user, and the removals inside send_to_user. */
  function Remove(r: Registry, uid: Uid): (r': Registry)
    requires Valid(r)
    ensures Valid(r') && r'.online == r.online - {uid} && |r'.chans| == |r.chans|
  {
    if uid in r.online then
      var c := r.online[uid];
      DropSender(r, c).(online := r.online - {uid})
    else r
  }

  /** insert_online_user: a replaced entry is told so and loses the map's handle. */
  function Insert(r: Registry, uid: Uid): (r': Registry)
    requires Valid(r)
    ensures Valid(r') && r'.online == r.online[uid := |r.chans|] && |r'.chans| == |r.chans| + 1
  {
    var kicked := if uid in r.online then DropSender(SendOn(r, r.online[uid], KICK_FRAME), r.online[uid]) else r;
    Registry(kicked.chans + [NewChan(uid)], r.online[uid := |r.chans|])
  }

  /** The first half of send_to_user: a missing or dead entry ends the call. */
  function DropDeadEntry(r: Registry, uid: Uid): Registry
    requires Valid(r)
  {
    if uid in r.online && !r.chans[r.online[uid]].alive then Remove(r, uid) else r
  }

  /** The second half: enqueue on the entry found, or clean up when the receiver is gone. */
  function FinishSend(r: Registry, uid: Uid, f: Frame): (r': Registry)
    requires Valid(r) && uid in r.online
    ensures Valid(r') && |r'.chans| == |r.chans|
  {
    var c := r.online[uid];
    if r.chans[c].open then SendOn(r, c, f) else Remove(SetDead(r, c), uid)
  }

  predicate Deliverable(r: Registry, uid: Uid)
    requires Valid(r)
  {
    uid in r.online && r.chans[r.online[uid]].alive && r.chans[r.online[uid]].open
  }

  /** send_to_user when nothing runs between its two halves. */
  function Send(r: Registry, uid: Uid, f: Frame): Registry
    requires Valid(r)
  {
    var found := DropDeadEntry(r, uid);
    if uid in found.online then FinishSend(found, uid, f) else found
  }

  /**
    The meaning of insert_online_user: the new channel is empty, open and alive; a replaced entry's
    channel loses one handle and, if its receiver is there, gains the one message that the user has
    logged in elsewhere; no other channel changes.
   */
  lemma InsertMeaning(r: Registry, uid: Uid)
    requires Valid(r)
    ensures var r' := Insert(r, uid);
            && |r'.chans| == |r.chans| + 1 && r'.online == r.online[uid := |r.chans|]
            && r'.chans[|r.chans|] == Chan(uid, [], [], true, true, 3)
            && (forall c :: 0 <= c < |r.chans| && !(uid in r.online && r.online[uid] == c) ==> r'.chans[c] == r.chans[c])
            && (uid in r.online ==>
                  var was, now := r.chans[r.online[uid]], r'.chans[r.online[uid]];
                  var kick := if was.open then [Frame(Kick, LoggedInElsewhere)] else [];
                  now == was.(queue := was.queue + kick, accepted := was.accepted + kick, senders := was.senders - 1))
  {
  }

  /** The meaning of remove_online_user: the entry and its handle go, and nothing else changes. */
  lemma RemoveMeaning(r: Registry, uid: Uid)
    requires Valid(r)
    ensures var r' := Remove(r, uid);
            && |r'.chans| == |r.chans| && r'.online == r.online - {uid}
            && (forall c :: 0 <= c < |r.chans| ==>
                  r'.chans[c] == if uid in r.online && r.online[uid] == c
                                 then r.chans[c].(senders := r.chans[c].senders - 1) else r.chans[c])
  {
  }

  lemma LoweredValid(r: Registry, c: nat)
    requires Valid(r) && c < |r.chans|
    ensures Valid(DropSender(r, c)) && Valid(DropSender(SetDead(r, c), c))
  {
  }

  /** A new last channel of a user is that user's newest. */
  lemma NewestIsLast(r: Registry, uid: Uid)
    requires Valid(r)
    ensures Valid(Registry(r.chans + [NewChan(uid)], r.online[uid := |r.chans|]))
  {
  }

  /** The frames of the offline synchronisation. */
  function SyncFrames(rows: seq<Payload>): seq<Frame> {
    seq(|rows|, i requires 0 <= i < |rows| => Frame(Sync, rows[i]))
  }

  predicate SameQueues(a: seq<Chan>, b: seq<Chan>) {
    |a| == |b| && forall i | 0 <= i < |a| :: b[i].queue == a[i].queue && b[i].accepted == a[i].accepted
  }

  /**
    The meaning of send_to_user's result. True: the frame is appended to exactly one queue,
    that of the newest connection of the user. False: no queue changes and the user has no entry.
   */
  lemma SendMeaning(r: Registry, uid: Uid, f: Frame)
    requires Valid(r)
    ensures Valid(Send(r, uid, f))
    ensures Deliverable(r, uid) ==>
              && Send(r, uid, f).online == r.online
              && Send(r, uid, f).chans == r.chans[r.online[uid] :=
                   r.chans[r.online[uid]].(queue := r.chans[r.online[uid]].queue + [f],
                                           accepted := r.chans[r.online[uid]].accepted + [f])]
    ensures !Deliverable(r, uid) ==>
              Send(r, uid, f).online == r.online - {uid} && SameQueues(r.chans, Send(r, uid, f).chans)
    ensures !Deliverable(r, uid) ==> forall c :: 0 <= c < |r.chans| ==>
              Send(r, uid, f).chans[c] == if uid in r.online && r.online[uid] == c
                                          then r.chans[c].(alive := false, senders := r.chans[c].senders - 1)
                                          else r.chans[c]
  {
  }
}
