/**
  The WebSocket commands of src/router.rs that sequence database operations with pushes:
  private_chat, group_chat, mark_seen and mark_group_read, each run without interference.
 */
module Router {
  import opened Base
  import opened Schema
  import opened OnlineUsers
  import opened State
  import opened Dao
  import Receipts
  import SeenReports
  import GroupSync
  import Pagination

  // ----- fan-out over a set of users -----

  /** The connection is the entry of one of the users and that user can be delivered to. */
  predicate Reaches(r: Registry, uids: set<Uid>, c: nat)
    requires OnlineUsers.Valid(r) && c < |r.chans|
  {
    var u := r.chans[c].owner;
    u in uids && Deliverable(r, u) && r.online[u] == c
  }

  function Always(f: Frame): Uid -> Frame {
    (u: Uid) => f
  }

  function Appended(s: seq<Frame>, f: Frame, really: bool): seq<Frame> {
    if really then s + [f] else s
  }

  ghost predicate QueuesFanned(r: Registry, r': Registry, uids: set<Uid>, f: Uid -> Frame)
    requires OnlineUsers.Valid(r) && |r'.chans| == |r.chans|
  {
    forall c :: 0 <= c < |r.chans| ==>
      && r'.chans[c].queue == Appended(r.chans[c].queue, f(r.chans[c].owner), Reaches(r, uids, c))
      && r'.chans[c].accepted == Appended(r.chans[c].accepted, f(r.chans[c].owner), Reaches(r, uids, c))
      && r'.chans[c].owner == r.chans[c].owner
  }

  ghost predicate OthersUntouched(r: Registry, r': Registry, uids: set<Uid>)
    requires |r'.chans| == |r.chans|
  {
    forall c :: 0 <= c < |r.chans| && r.chans[c].owner !in uids ==> r'.chans[c] == r.chans[c]
  }

  ghost predicate EntriesPruned(r: Registry, r': Registry, uids: set<Uid>)
    requires OnlineUsers.Valid(r)
  {
    && (forall u :: u in r'.online <==> u in r.online && (u in uids ==> Deliverable(r, u)))
    && (forall u :: u in r'.online ==> r'.online[u] == r.online[u])
  }

  /**
    Every user's newest connection that accepts gets that user's frame exactly once, no other queue
    changes, entries that could not be delivered to are gone, and connections of users outside
    the set are untouched.
   */
  ghost predicate FannedOut(r: Registry, r': Registry, uids: set<Uid>, f: Uid -> Frame)
    requires OnlineUsers.Valid(r)
  {
    |r'.chans| == |r.chans| && QueuesFanned(r, r', uids, f) && OthersUntouched(r, r', uids) && EntriesPruned(r, r', uids)
  }

  lemma FanOutNobody(r: Registry, f: Uid -> Frame)
    requires OnlineUsers.Valid(r)
    ensures FannedOut(r, r, {}, f)
  {
  }

  /** A user not yet pushed to still looks as at the start. */
  lemma StillDeliverable(r: Registry, m: Registry, uids: set<Uid>, u: Uid)
    requires OnlineUsers.Valid(r) && OnlineUsers.Valid(m) && u !in uids && |m.chans| == |r.chans|
    requires OthersUntouched(r, m, uids) && EntriesPruned(r, m, uids)
    ensures u in m.online <==> u in r.online
    ensures u in r.online ==> m.online[u] == r.online[u] && m.chans[m.online[u]] == r.chans[r.online[u]]
    ensures Deliverable(m, u) <==> Deliverable(r, u)
  {
  }

  lemma PruneOneMore(r: Registry, m: Registry, uids: set<Uid>, u: Uid, f: Frame)
    requires OnlineUsers.Valid(r) && OnlineUsers.Valid(m) && u !in uids && |m.chans| == |r.chans|
    requires OthersUntouched(r, m, uids) && EntriesPruned(r, m, uids)
    ensures EntriesPruned(r, OnlineUsers.Send(m, u, f), uids + {u})
  {
  }

  lemma SendTouchesOnlyOwner(r: Registry, u: Uid, f: Frame)
    requires OnlineUsers.Valid(r)
    ensures var r' := OnlineUsers.Send(r, u, f);
            && |r'.chans| == |r.chans|
            && (forall c :: 0 <= c < |r.chans| ==> r'.chans[c].owner == r.chans[c].owner)
            && (forall c :: 0 <= c < |r.chans| && r.chans[c].owner != u ==> r'.chans[c] == r.chans[c])
  {
  }

  lemma OneQueue(r: Registry, m: Registry, m': Registry, uids: set<Uid>, u: Uid, c: nat, f: Uid -> Frame)
    requires OnlineUsers.Valid(r) && OnlineUsers.Valid(m) && c < |r.chans| == |m.chans|
    requires u !in uids && r.chans[c].owner == u && m.chans[c] == r.chans[c] && m' == OnlineUsers.Send(m, u, f(u))
    requires Deliverable(m, u) <==> Deliverable(r, u)
    requires u in r.online ==> u in m.online && m.online[u] == r.online[u]
    ensures c < |m'.chans| && m'.chans[c].queue == Appended(r.chans[c].queue, f(r.chans[c].owner), Reaches(r, uids + {u}, c))
    ensures m'.chans[c].accepted == Appended(r.chans[c].accepted, f(r.chans[c].owner), Reaches(r, uids + {u}, c))
  {
    SendMeaning(m, u, f(u));
    hide OnlineUsers.Send;
  }

  /** One more push extends an exact fan-out. */
  lemma FanOutOneMore(r: Registry, m: Registry, uids: set<Uid>, u: Uid, f: Uid -> Frame)
    requires OnlineUsers.Valid(r) && OnlineUsers.Valid(m) && u !in uids
    requires FannedOut(r, m, uids, f)
    ensures FannedOut(r, OnlineUsers.Send(m, u, f(u)), uids + {u}, f)
  {
    var m' := OnlineUsers.Send(m, u, f(u));
    PruneOneMore(r, m, uids, u, f(u));
    SendTouchesOnlyOwner(m, u, f(u));
    StillDeliverable(r, m, uids, u);
    hide OnlineUsers.Send, Appended, Deliverable, EntriesPruned, OnlineUsers.Valid;
    forall c | 0 <= c < |r.chans|
      ensures m'.chans[c].queue == Appended(r.chans[c].queue, f(r.chans[c].owner), Reaches(r, uids + {u}, c))
      ensures m'.chans[c].accepted == Appended(r.chans[c].accepted, f(r.chans[c].owner), Reaches(r, uids + {u}, c))
    {
      if r.chans[c].owner == u {
        OneQueue(r, m, m', uids, u, c, f);
      }
    }
  }

  /** The reply is the last frame of the connection's queue, unless the receiver has gone. */
  predicate Replied(me: Connection, payload: Payload)
    reads me
  {
    me.open ==> me.queue != [] && me.queue[|me.queue| - 1] == Frame(Reply, payload)
  }

  /** A reply on the connection's own channel. */
  method SendReply(app: AppState, me: Connection, ghost k: nat, payload: Payload)
    requires app.Valid() && k < |app.connections| && app.connections[k] == me
    modifies me
    ensures app.Valid()
    ensures app.View() == SendOn(old(app.View()), k, Frame(Reply, payload))
    ensures Replied(me, payload)
  {
    var _ := me.Send(Frame(Reply, payload));
    assert app.View().chans == SendOn(old(app.View()), k, Frame(Reply, payload)).chans;
  }

  /** The push loop over the group's members, in whatever order they are returned. */
  method PushToMembers(app: AppState, members: set<Uid>, sender: Uid, f: Frame)
    requires app.Valid()
    modifies app, app.connections
    ensures app.Valid() && app.connections == old(app.connections)
    ensures FannedOut(old(app.View()), app.View(), members - {sender}, Always(f))
  {
    var left := members;
    ghost var before, done: set<Uid> := app.View(), {};
    FanOutNobody(before, Always(f));
    hide FannedOut, OnlineUsers.Send;
    while left != {}
      invariant app.Valid() && app.connections == old(app.connections)
      invariant done + (left - {sender}) == members - {sender} && done !! left && left <= members
      invariant FannedOut(before, app.View(), done, Always(f))
      decreases left
    {
      var u :| u in left;
      left := left - {u};
      if u != sender {
        FanOutOneMore(before, app.View(), done, u, Always(f));
        var _ := app.SendToUser(u, f);
        done := done + {u};
      }
    }
    assert done == members - {sender};
  }

  // ----- commands -----

  lemma PersistedRow<B(!new)>(t: Table<B>, cid: Option<string>, body: B)
    ensures exists r :: r in Persist(t, cid, body).0.rows && r.id == Persist(t, cid, body).1 && r.clientId == cid
  {
    var (t', id) := Persist(t, cid, body);
    if Conflicts(t, cid) {
      var i :| 0 <= i < |t.rows| && t.rows[i].clientId == cid && t.rows[i].id == id;
      assert t.rows[i] in t'.rows;
    } else {
      assert t'.rows[|t.rows|].id == id;
      assert t'.rows[|t.rows|] in t'.rows;
    }
  }

  /**
    The second half of private_chat. It can only be run once the message is stored under the
    acknowledged id: push, then acknowledge with whether the push was accepted.
   */
  method PushAndAck(db: Database, app: AppState, me: Connection, ghost k: nat, msgId: nat, cid: Option<string>,
                    uid: Uid, to: Uid, content: string, msgType: nat)
    returns (delivered: bool)
    requires db.Valid() && app.Valid() && k < |app.connections| && app.connections[k] == me && me.owner == uid
    requires exists r :: r in db.chats.rows && r.id == msgId && r.clientId == cid
    modifies app, app.connections
    ensures app.Valid()
    ensures delivered == Deliverable(old(app.View()), to)
    ensures app.View() == SendOn(OnlineUsers.Send(old(app.View()), to, Frame(Push, PrivatePush(uid, to, content, msgType))),
                                 k, Frame(Reply, PrivateAck(msgId, delivered)))
  {
    delivered := app.SendToUser(to, Frame(Push, PrivatePush(uid, to, content, msgType)));
    SendReply(app, me, k, PrivateAck(msgId, delivered));
  }

  /** private_chat: persist, then push and acknowledge. */
  method PrivateChat(db: Database, app: AppState, me: Connection, ghost k: nat, uid: Uid,
                     to: Uid, content: string, msgType: nat, cid: Option<string>)
    returns (msgId: nat, delivered: bool)
    requires db.Valid() && app.Valid() && k < |app.connections| && app.connections[k] == me && me.owner == uid
    modifies db, app, app.connections
    ensures db.Valid() && app.Valid()
    ensures db.View() == old(db.View()).(chats := Persist(old(db.chats), cid, Chat(uid, to, content, msgType, false)).0)
    ensures msgId == Persist(old(db.chats), cid, Chat(uid, to, content, msgType, false)).1
    ensures exists r :: r in db.chats.rows && r.id == msgId && r.clientId == cid
    ensures delivered == Deliverable(old(app.View()), to)
    ensures app.View() == SendOn(OnlineUsers.Send(old(app.View()), to, Frame(Push, PrivatePush(uid, to, content, msgType))),
                                 k, Frame(Reply, PrivateAck(msgId, delivered)))
  {
    hide Schema.Valid;
    msgId := db.PersistChatMessage(uid, to, content, msgType, cid);
    PersistedRow(old(db.chats), cid, Chat(uid, to, content, msgType, false));
    hide Persist, OnlineUsers.Send;
    delivered := PushAndAck(db, app, me, k, msgId, cid, uid, to, content, msgType);
  }

  /**
    What one group_chat command does: outsiders get an error and nothing else happens; for a
    member the message is persisted, the acknowledgement is enqueued before any push, and every
    other member is pushed to.
   */
  ghost predicate GroupChatDone(t: Tables, t': Tables, r: Registry, r': Registry, k: nat, body: Post, cid: Option<string>)
    requires OnlineUsers.Valid(r) && k < |r.chans|
  {
    if (body.gid, body.from) !in t.members then
      t' == t && r' == SendOn(r, k, Frame(Reply, ErrorReply(403)))
    else
      var (posts, id) := Persist(t.posts, cid, body);
      && t' == t.(posts := posts)
      && FannedOut(SendOn(r, k, Frame(Reply, GroupAck(id))), r', MemberSet(t, body.gid) - {body.from},
                   Always(Frame(Push, GroupPush(body.gid, body.from, body.content, body.msgType))))
  }

  /** A member's message is always accepted: membership refers to an existing group and user. */
  lemma MemberMayPost(t: Tables, body: Post, cid: Option<string>)
    requires Schema.Valid(t) && (body.gid, body.from) in t.members
    ensures Accepts(t, InsertPost(body, cid))
    ensures body.readCount == 0 ==>
              Exec(t, InsertPost(body, cid)) == t.(posts := Persist(t.posts, cid, body).0)
  {
  }

  lemma SameMembers(t: Tables, t': Tables, gid: Gid)
    requires t'.members == t.members
    ensures MemberSet(t', gid) == MemberSet(t, gid)
  {
  }

  /**
    The push half of group_chat. It can only be run once the message is stored and its
    acknowledgement is in the sender's queue.
   */
  method PushToGroup(db: Database, app: AppState, me: Connection, ghost k: nat, id: nat, body: Post, ghost cid: Option<string>)
    requires app.Valid() && k < |app.connections| && app.connections[k] == me && me.owner == body.from
    requires exists r :: r in db.posts.rows && r.id == id && r.clientId == cid
    requires Replied(me, GroupAck(id))
    modifies app, app.connections
    ensures app.Valid()
    ensures FannedOut(old(app.View()), app.View(), MemberSet(db.View(), body.gid) - {body.from},
                      Always(Frame(Push, GroupPush(body.gid, body.from, body.content, body.msgType))))
  {
    hide FannedOut;
    var members := MemberSet(db.View(), body.gid);
    PushToMembers(app, members, body.from, Frame(Push, GroupPush(body.gid, body.from, body.content, body.msgType)));
  }

  /** The member's branch: persist, acknowledge, push. */
  method PostToGroup(db: Database, app: AppState, me: Connection, ghost k: nat, body: Post, cid: Option<string>)
    requires db.Valid() && app.Valid() && k < |app.connections| && app.connections[k] == me && me.owner == body.from
    requires (body.gid, body.from) in db.members && body.readCount == 0
    modifies db, app, app.connections
    ensures db.Valid() && app.Valid()
    ensures GroupChatDone(old(db.View()), db.View(), old(app.View()), app.View(), k, body, cid)
  {
    hide Schema.Valid, FannedOut, Persist, Exec, Accepts, MemberSet;
    MemberMayPost(db.View(), body, cid);
    PersistedRow(db.posts, cid, body);
    var r := db.PersistGroupMessage(body.gid, body.from, body.content, body.msgType, cid);
    SendReply(app, me, k, GroupAck(r.value));
    SameMembers(old(db.View()), db.View(), body.gid);
    hide SendOn, Replied;
    PushToGroup(db, app, me, k, r.value, body, cid);
  }

  /** group_chat, run without interference (a concurrent deletion could make the insert fail with a 500 reply). */
  method GroupChat(db: Database, app: AppState, me: Connection, ghost k: nat, uid: Uid,
                   gid: Gid, content: string, msgType: nat, cid: Option<string>)
    requires db.Valid() && app.Valid() && k < |app.connections| && app.connections[k] == me && me.owner == uid
    modifies db, app, app.connections
    ensures db.Valid() && app.Valid()
    ensures GroupChatDone(old(db.View()), db.View(), old(app.View()), app.View(), k, Post(gid, uid, content, msgType, 0), cid)
  {
    hide Schema.Valid, FannedOut, Persist;
    if (gid, uid) !in db.members {
      SendReply(app, me, k, ErrorReply(403));
    } else {
      PostToGroup(db, app, me, k, Post(gid, uid, content, msgType, 0), cid);
    }
  }

  // ----- telling the sender that messages were seen -----

  /** The registry after the notice, if there is a reason to send it. */
  function Notify(r: Registry, peer: Uid, notice: Frame, due: bool): Registry
    requires OnlineUsers.Valid(r)
  {
    if due then OnlineUsers.Send(r, peer, notice) else r
  }

  /**
    A sender learns that messages were seen if and only if the notice is due and the sender has
    a newest connection that accepts it; that one queue gains the notice and no other changes.
   */
  lemma NoticeReachesIff(r: Registry, peer: Uid, notice: Frame, due: bool)
    requires OnlineUsers.Valid(r)
    ensures var r' := Notify(r, peer, notice, due);
            && |r'.chans| == |r.chans|
            && (forall c :: 0 <= c < |r.chans| ==>
                  && r'.chans[c].queue == Appended(r.chans[c].queue, notice, due && Reaches(r, {peer}, c))
                  && r'.chans[c].accepted == Appended(r.chans[c].accepted, notice, due && Reaches(r, {peer}, c)))
            && ((exists c :: 0 <= c < |r.chans| && notice in r'.chans[c].queue[|r.chans[c].queue|..])
                <==> due && Deliverable(r, peer))
  {
    SendMeaning(r, peer, notice);
    hide OnlineUsers.Send;
    var r' := Notify(r, peer, notice, due);
    if due && Deliverable(r, peer) {
      var c := r.online[peer];
      assert r'.chans[c].queue[|r.chans[c].queue|..] == [notice];
    }
  }

  /** mark_seen: the peer is told of the messages just marked, if there were any. */
  method MarkSeenCommand(db: Database, app: AppState, uid: Uid, peer: Uid)
    requires db.Valid() && app.Valid()
    modifies db, app, app.connections
    ensures db.Valid() && app.Valid()
    ensures db.View() == Exec(old(db.View()), MarkSeen(peer, uid))
    ensures var ids := UnseenIds(old(db.chats).rows, peer, uid);
            app.View() == Notify(old(app.View()), peer, Frame(Push, SeenUpdate(ids, uid)), ids != [])
  {
    hide Schema.Valid, Exec, OnlineUsers.Send;
    var ids := db.MarkSeenFromPeer(peer, uid);
    if ids != [] {
      var _ := app.SendToUser(peer, Frame(Push, SeenUpdate(ids, uid)));
    }
  }

  // ----- offline synchronisation on connect -----

  function PrivatePushes(rows: seq<Row<Chat>>): seq<Payload> {
    seq(|rows|, i requires 0 <= i < |rows| =>
      PrivatePush(rows[i].body.from, rows[i].body.to, rows[i].body.content, rows[i].body.msgType))
  }

  function GroupPushes(rows: seq<Row<Post>>): seq<Payload> {
    seq(|rows|, i requires 0 <= i < |rows| =>
      GroupPush(rows[i].body.gid, rows[i].body.from, rows[i].body.content, rows[i].body.msgType))
  }

  function SyncPayloads(t: Tables, uid: Uid): seq<Payload> {
    var private := SeenReports.GetUnseen(t.chats.rows, uid, SYNC_LIMIT);
    var group := GroupSync.GetUnseenPosts(t, uid, SYNC_LIMIT);
    PrivatePushes(private) + GroupPushes(group)
  }

  method PushAll(me: Connection, payloads: seq<Payload>)
    modifies me
    ensures me.open == old(me.open) && me.alive == old(me.alive)
    ensures me.queue == old(me.queue) + if me.open then SyncFrames(payloads) else []
  {
    for i := 0 to |payloads|
      invariant me.open == old(me.open) && me.alive == old(me.alive)
      invariant me.queue == old(me.queue) + if me.open then SyncFrames(payloads[..i]) else []
    {
      assert SyncFrames(payloads[..i + 1]) == SyncFrames(payloads[..i]) + [Frame(Sync, payloads[i])];
      var _ := me.Send(Frame(Sync, payloads[i]));
    }
    assert payloads[..|payloads|] == payloads;
  }

  /** The sync task, run on its own: both unseen pages, oldest first, private before group. */
  method SyncOffline(db: Database, me: Connection, uid: Uid)
    modifies me
    ensures me.open == old(me.open) && me.alive == old(me.alive)
    ensures me.queue == old(me.queue) + if me.open then SyncFrames(SyncPayloads(db.View(), uid)) else []
  {
    hide SeenReports.GetUnseen, GroupSync.GetUnseenPosts, PrivatePushes, GroupPushes;
    var t := db.View();
    var private := PrivatePushes(SeenReports.GetUnseen(t.chats.rows, uid, SYNC_LIMIT));
    PushAll(me, private);
    var group := GroupPushes(GroupSync.GetUnseenPosts(t, uid, SYNC_LIMIT));
    PushAll(me, group);
    assert SyncFrames(private + group) == SyncFrames(private) + SyncFrames(group);
  }

  /**
    What a reconnecting user is pushed, item by item: first the page of unseen private messages,
    then the page of unread group messages, each oldest first and each message as it was sent.
   */
  lemma SyncPayloadsExact(t: Tables, uid: Uid)
    requires Schema.Valid(t)
    ensures var private := SeenReports.GetUnseen(t.chats.rows, uid, SYNC_LIMIT);
            var group := GroupSync.GetUnseenPosts(t, uid, SYNC_LIMIT);
            var frames := SyncFrames(SyncPayloads(t, uid));
            && Ascending(private) && Ascending(group) && |frames| == |private| + |group|
            && (forall i :: 0 <= i < |private| ==>
                  frames[i] == Frame(Sync, PrivatePush(private[i].body.from, private[i].body.to,
                                                       private[i].body.content, private[i].body.msgType)))
            && (forall i :: 0 <= i < |group| ==>
                  frames[|private| + i] == Frame(Sync, GroupPush(group[i].body.gid, group[i].body.from,
                                                                 group[i].body.content, group[i].body.msgType)))
  {
    SeenReports.SyncPageAscends(t.chats, uid, SYNC_LIMIT);
    GroupSync.GroupPageAscends(t, uid, SYNC_LIMIT);
    hide SeenReports.GetUnseen, GroupSync.GetUnseenPosts, Ascending;
  }

  /** A reconnecting recipient is pushed an unseen message whenever fewer than 200 older ones are unseen. */
  lemma UnseenMessageIsSynced(t: Tables, r: Row<Chat>)
    requires Schema.Valid(t) && r in t.chats.rows && !r.body.seen
    requires |Filter(t.chats.rows, SeenReports.OlderUnseen(r.body.to, r.id))| < 200
    ensures Frame(Sync, PrivatePush(r.body.from, r.body.to, r.body.content, r.body.msgType))
            in SyncFrames(SyncPayloads(t, r.body.to))
  {
    SeenReports.SyncPageExact(t.chats, r.body.to, SYNC_LIMIT, r);
    SyncPayloadsExact(t, r.body.to);
    hide Filter, SeenReports.GetUnseen, SeenReports.OlderUnseen, SyncPayloads;
    var page := SeenReports.GetUnseen(t.chats.rows, r.body.to, SYNC_LIMIT);
    var i :| 0 <= i < |page| && page[i] == r;
  }

  /** And an unread group message whenever fewer than 200 older ones of any group are unread. */
  lemma UnreadPostIsSynced(t: Tables, u: Uid, r: Row<Post>)
    requires Schema.Valid(t) && r in t.posts.rows && Cursor(t, u, r.body.gid) < r.id
    requires |Filter(t.posts.rows, GroupSync.OlderUnread(t, u, r.id))| < 200
    ensures Frame(Sync, GroupPush(r.body.gid, r.body.from, r.body.content, r.body.msgType))
            in SyncFrames(SyncPayloads(t, u))
  {
    GroupSync.GroupPageExact(t, u, SYNC_LIMIT, r);
    SyncPayloadsExact(t, u);
    hide Filter, GroupSync.GetUnseenPosts, GroupSync.OlderUnread, SyncPayloads, Cursor;
    var page := GroupSync.GetUnseenPosts(t, u, SYNC_LIMIT);
    var i :| 0 <= i < |page| && page[i] == r;
  }

  // ----- grouping a delta by sender -----

  function SentBy(sender: Uid): DeltaItem -> bool {
    (d: DeltaItem) => d.from == sender
  }

  /** The items of one sender, in delta order. */
  function ItemsOf(delta: seq<DeltaItem>, s: Uid): seq<DeltaItem> {
    Filter(delta, SentBy(s))
  }

  function Senders(delta: seq<DeltaItem>): set<Uid> {
    set n | 0 <= n < |delta| :: delta[n].from
  }

  function ToStatus(d: DeltaItem): Status {
    Status(d.msgId, d.read, d.total)
  }

  function ToStatuses(items: seq<DeltaItem>): seq<Status> {
    seq(|items|, i requires 0 <= i < |items| => ToStatus(items[i]))
  }

  lemma NoneSent(delta: seq<DeltaItem>, s: Uid)
    requires s !in Senders(delta)
    ensures ItemsOf(delta, s) == []
  {
    assert forall d :: d in delta ==> d.from in Senders(delta);
    FilterNone(delta, SentBy(s));
  }

  /** Building `sender_msgs`: each sender is mapped to their own items, in delta order. */
  method GroupBySender(delta: seq<DeltaItem>) returns (m: map<Uid, seq<DeltaItem>>)
    ensures m.Keys == Senders(delta)
    ensures forall s :: s in m ==> m[s] == ItemsOf(delta, s)
  {
    m := map[];
    for i := 0 to |delta|
      invariant m.Keys == Senders(delta[..i])
      invariant forall s :: s in m ==> m[s] == ItemsOf(delta[..i], s)
    {
      var d := delta[i];
      assert delta[..i + 1] == delta[..i] + [d];
      assert Senders(delta[..i + 1]) == Senders(delta[..i]) + {d.from};
      forall s
        ensures ItemsOf(delta[..i + 1], s) == ItemsOf(delta[..i], s) + if d.from == s then [d] else []
      {
        FilterAppend(delta[..i], d, SentBy(s));
      }
      if d.from !in m {
        NoneSent(delta[..i], d.from);
      }
      m := m[d.from := Get(m, d.from, []) + [d]];
    }
    assert delta[..|delta|] == delta;
  }

  /** The update for one sender. */
  function UpdateFor(gid: Gid, reader: Uid, delta: seq<DeltaItem>): Uid -> Frame {
    (s: Uid) => Frame(Push, GroupReadUpdate(gid, ToStatuses(ItemsOf(delta, s)), reader))
  }

  /**
    The update of sender s, written out: it names the group and the reader, and holds the id,
    count and total of exactly the items of s, in delta order.
   */
  lemma UpdateExact(gid: Gid, reader: Uid, delta: seq<DeltaItem>, s: Uid)
    ensures s in Senders(delta) <==> exists d :: d in delta && d.from == s
    ensures var f := UpdateFor(gid, reader, delta)(s);
            && f.origin == Push && f.payload.GroupReadUpdate? && f.payload.gid == gid && f.payload.reader == reader
            && |f.payload.statuses| == |ItemsOf(delta, s)|
            && (forall x :: x in f.payload.statuses <==>
                  exists d :: d in delta && d.from == s && x == Status(d.msgId, d.read, d.total))
            && (forall i :: 0 <= i < |ItemsOf(delta, s)| ==>
                  var d := ItemsOf(delta, s)[i];
                  f.payload.statuses[i] == Status(d.msgId, d.read, d.total))
  {
    var items := ItemsOf(delta, s);
    var statuses := ToStatuses(items);
    forall x ensures x in statuses <==> exists d :: d in delta && d.from == s && x == Status(d.msgId, d.read, d.total) {
      if x in statuses {
        var i :| 0 <= i < |statuses| && statuses[i] == x;
        assert items[i] in items;
      }
      if d :| d in delta && d.from == s && x == Status(d.msgId, d.read, d.total) {
        assert d in items;
        var i :| 0 <= i < |items| && items[i] == d;
        assert statuses[i] == x;
      }
    }
  }

  /**
    The emission loop over `sender_msgs`, whatever its order: the newest accepting connection of
    each sender gets one update with exactly that sender's statuses, and no other queue changes.
   */
  method PushUpdates(app: AppState, gid: Gid, reader: Uid, delta: seq<DeltaItem>)
    requires app.Valid()
    modifies app, app.connections
    ensures app.Valid() && app.connections == old(app.connections)
    ensures FannedOut(old(app.View()), app.View(), Senders(delta), UpdateFor(gid, reader, delta))
  {
    var grouped := GroupBySender(delta);
    var left := grouped.Keys;
    ghost var before, done: set<Uid>, f := app.View(), {}, UpdateFor(gid, reader, delta);
    FanOutNobody(before, f);
    hide FannedOut, OnlineUsers.Send, Senders, ItemsOf, ToStatuses;
    while left != {}
      invariant app.Valid() && app.connections == old(app.connections)
      invariant left + done == grouped.Keys && left !! done
      invariant FannedOut(before, app.View(), done, f)
      decreases left
    {
      var s :| s in left;
      left := left - {s};
      FanOutOneMore(before, app.View(), done, s, f);
      var _ := app.SendToUser(s, Frame(Push, GroupReadUpdate(gid, ToStatuses(grouped[s]), reader)));
      done := done + {s};
    }
    assert done == grouped.Keys;
  }

  function StatusesFor(f: Uid -> Frame, s: Uid): seq<Status> {
    if f(s).payload.GroupReadUpdate? then f(s).payload.statuses else []
  }

  /** All statuses sent out, sender by sender. */
  function SentOut(f: Uid -> Frame, order: seq<Uid>): seq<Status> {
    if order == [] then []
    else SentOut(f, order[..|order| - 1]) + StatusesFor(f, order[|order| - 1])
  }

  lemma OneMoreStatus(gid: Gid, reader: Uid, delta: seq<DeltaItem>, d: DeltaItem, s: Uid)
    ensures StatusesFor(UpdateFor(gid, reader, delta + [d]), s)
            == StatusesFor(UpdateFor(gid, reader, delta), s) + if d.from == s then [ToStatus(d)] else []
  {
    FilterAppend(delta, d, SentBy(s));
    assert ToStatuses(ItemsOf(delta, s) + [d]) == ToStatuses(ItemsOf(delta, s)) + [ToStatus(d)];
  }

  lemma {:induction false} OneMoreItem(gid: Gid, reader: Uid, delta: seq<DeltaItem>, d: DeltaItem, order: seq<Uid>)
    requires forall i, j :: 0 <= i < j < |order| ==> order[i] != order[j]
    ensures multiset(SentOut(UpdateFor(gid, reader, delta + [d]), order))
            == multiset(SentOut(UpdateFor(gid, reader, delta), order))
               + (if d.from in order then multiset{ToStatus(d)} else multiset{})
  {
    if order != [] {
      var init, last := order[..|order| - 1], order[|order| - 1];
      assert order == init + [last];
      OneMoreItem(gid, reader, delta, d, init);
      OneMoreStatus(gid, reader, delta, d, last);
      hide UpdateFor, StatusesFor, ToStatus;
    }
  }

  lemma {:induction false} NothingSentOut(gid: Gid, reader: Uid, order: seq<Uid>)
    ensures SentOut(UpdateFor(gid, reader, []), order) == []
  {
    if order != [] {
      NothingSentOut(gid, reader, order[..|order| - 1]);
    }
  }

  lemma StatusesAre(delta: seq<DeltaItem>)
    ensures ToStatuses(delta)
            == seq(|delta|, i requires 0 <= i < |delta| => Status(delta[i].msgId, delta[i].read, delta[i].total))
  {
  }

  /** Nothing is lost, repeated or altered by grouping: the statuses of all updates are a permutation of the delta's. */
  lemma {:induction false} GroupingConserves(gid: Gid, reader: Uid, delta: seq<DeltaItem>, order: seq<Uid>)
    requires forall i, j :: 0 <= i < j < |order| ==> order[i] != order[j]
    requires forall n :: 0 <= n < |delta| ==> delta[n].from in order
    ensures multiset(SentOut(UpdateFor(gid, reader, delta), order))
            == multiset(seq(|delta|, i requires 0 <= i < |delta| => Status(delta[i].msgId, delta[i].read, delta[i].total)))
  {
    StatusesAre(delta);
    if delta == [] {
      NothingSentOut(gid, reader, order);
    } else {
      var init, last := delta[..|delta| - 1], delta[|delta| - 1];
      assert delta == init + [last];
      GroupingConserves(gid, reader, init, order);
      StatusesAre(init);
      OneMoreItem(gid, reader, init, last, order);
      assert ToStatuses(delta) == ToStatuses(init) + [ToStatus(last)];
    }
  }

  ghost predicate IdsAscend(items: seq<DeltaItem>) {
    forall m, n :: 0 <= m < n < |items| ==> items[m].msgId < items[n].msgId
  }

  /** Each sender's own list keeps the ascending order of the delta. */
  lemma {:induction false} UpdatesAscend(delta: seq<DeltaItem>, s: Uid)
    requires IdsAscend(delta)
    ensures IdsAscend(ItemsOf(delta, s))
  {
    if delta != [] {
      var init, last := delta[..|delta| - 1], delta[|delta| - 1];
      UpdatesAscend(init, s);
      var kept := ItemsOf(init, s);
      forall m | 0 <= m < |kept| ensures kept[m].msgId < last.msgId {
        assert kept[m] in init;
      }
    }
  }

  /** mark_group_read: the delta of the call is pushed, grouped by sender; errors push nothing. */
  method MarkGroupReadCommand(db: Database, app: AppState, uid: Uid, gid: Gid)
    requires db.Valid() && app.Valid()
    modifies db, app, app.connections
    ensures db.Valid() && app.Valid()
    ensures db.View() == Receipts.MarkedRead(old(db.View()), gid, uid)
    ensures match Receipts.MarkReadAnswer(old(db.View()), gid, uid)
            case Err => app.View() == old(app.View())
            case Ok(delta) => FannedOut(old(app.View()), app.View(), Senders(delta), UpdateFor(gid, uid, delta))
  {
    hide Schema.Valid, Receipts.MarkedRead, Receipts.MarkReadAnswer, FannedOut;
    var r := db.MarkGroupReadAndGetDelta(gid, uid);
    if r.Ok? {
      PushUpdates(app, gid, uid, r.value);
    }
  }

  // ----- history requests -----

  /**
    message_history: everything unseen from the peer is marked in any case, but the peer is
    told only when the page query succeeds; a negative limit marks without telling anybody.
   */
  method MessageHistory(db: Database, app: AppState, caller: Uid, peer: Uid, before: Option<nat>, limit: Option<int>)
    returns (page: Result<seq<Row<Chat>>>)
    requires db.Valid() && app.Valid()
    modifies db, app, app.connections
    ensures db.Valid() && app.Valid()
    ensures db.View() == Exec(old(db.View()), MarkSeen(peer, caller))
    ensures page == Pagination.Page(Pagination.ChatView(db.View(), caller, peer), before, Pagination.HandlerLimit(limit))
    ensures page.Err? <==> limit.Some? && limit.value < 0
    ensures var ids := UnseenIds(old(db.chats).rows, peer, caller);
            app.View() == Notify(old(app.View()), peer, Frame(Push, SeenUpdate(ids, caller)),
                                 ids != [] && !(limit.Some? && limit.value < 0))
  {
    hide Schema.Valid, Exec, OnlineUsers.Send;
    var r := db.GetChatHistory(caller, peer, before, Pagination.HandlerLimit(limit));
    if r.Err? {
      return Err;
    }
    var (items, ids) := r.value;
    if ids != [] {
      var _ := app.SendToUser(peer, Frame(Push, SeenUpdate(ids, caller)));
    }
    return Ok(items);
  }

  /** group_history: the page shows the counts before this view is counted; then the group is marked as read. */
  method GroupHistory(db: Database, app: AppState, caller: Uid, gid: Gid, before: Option<nat>, limit: Option<int>)
    returns (page: Result<seq<Row<Post>>>)
    requires db.Valid() && app.Valid()
    modifies db, app, app.connections
    ensures db.Valid() && app.Valid()
    ensures page == Pagination.Page(Pagination.GroupView(old(db.View()), gid), before, Pagination.HandlerLimit(limit))
    ensures page.Err? ==> db.View() == old(db.View()) && app.View() == old(app.View())
    ensures page.Ok? ==> db.View() == Receipts.MarkedRead(old(db.View()), gid, caller)
    ensures page.Ok? ==>
            match Receipts.MarkReadAnswer(old(db.View()), gid, caller)
            case Err => app.View() == old(app.View())
            case Ok(delta) => FannedOut(old(app.View()), app.View(), Senders(delta), UpdateFor(gid, caller, delta))
  {
    hide Schema.Valid, Receipts.MarkedRead, Receipts.MarkReadAnswer, FannedOut;
    page := Pagination.Page(Pagination.GroupView(db.View(), gid), before, Pagination.HandlerLimit(limit));
    if page.Ok? {
      MarkGroupReadCommand(db, app, caller, gid);
    }
  }
}
