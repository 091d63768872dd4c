/**
  get_conversations: SELECT DISTINCT ON (peer) ... ORDER BY peer, id DESC.
 */
module Conversations {
  import opened Base
  import opened Schema

  datatype Item = Item(peer: Uid, name: string, lastMsg: string, lastType: nat, lastId: nat)

  predicate Involves(r: Row<Chat>, uid: Uid) {
    r.body.from == uid || r.body.to == uid
  }

  function Peer(r: Row<Chat>, uid: Uid): Uid {
    if r.body.from == uid then r.body.to else r.body.from
  }

  predicate Listed(users: map<Uid, string>, r: Row<Chat>, uid: Uid) {
    Involves(r, uid) && Peer(r, uid) in users
  }

  function ItemOf(users: map<Uid, string>, r: Row<Chat>, uid: Uid): Item
    requires Listed(users, r, uid)
  {
    Item(Peer(r, uid), users[Peer(r, uid)], r.body.content, r.body.msgType, r.id)
  }

  /** The rows of the query before ordering: the user's messages, joined with existing peers. */
  function Joined(users: map<Uid, string>, rows: seq<Row<Chat>>, uid: Uid): (items: seq<Item>)
    ensures forall x :: x in items <==> exists r :: r in rows && Listed(users, r, uid) && x == ItemOf(users, r, uid)
  {
    if rows == [] then []
    else
      var init, last := rows[..|rows| - 1], rows[|rows| - 1];
      assert rows == init + [last];
      if Listed(users, last, uid) then Joined(users, init, uid) + [ItemOf(users, last, uid)] else Joined(users, init, uid)
  }

  /** ORDER BY peer, id DESC. */
  predicate Before(a: Item, b: Item) {
    a.peer < b.peer || (a.peer == b.peer && a.lastId >= b.lastId)
  }

  ghost predicate Ordered(items: seq<Item>) {
    forall i, j :: 0 <= i < j < |items| ==> Before(items[i], items[j])
  }

  function Place(x: Item, sorted: seq<Item>): (out: seq<Item>)
    ensures forall y :: y in out <==> y == x || y in sorted
    ensures Ordered(sorted) ==> Ordered(out)
  {
    if sorted == [] then [x]
    else if Before(x, sorted[0]) then [x] + sorted
    else
      var rest := Place(x, sorted[1..]);
      assert forall i :: 0 <= i < |rest| ==> rest[i] in rest;
      assert Ordered(sorted) ==> forall y :: y in sorted[1..] ==> Before(sorted[0], y);
      assert sorted == [sorted[0]] + sorted[1..];
      [sorted[0]] + rest
  }

  function Sort(items: seq<Item>): (out: seq<Item>)
    ensures Ordered(out)
    ensures forall y :: y in out <==> y in items
  {
    if items == [] then [] else Place(items[0], Sort(items[1..]))
  }

  lemma {:induction false} PlacePermutes(x: Item, sorted: seq<Item>)
    ensures multiset(Place(x, sorted)) == multiset(sorted) + multiset{x}
  {
    if sorted != [] {
      assert sorted == [sorted[0]] + sorted[1..];
      PlacePermutes(x, sorted[1..]);
    }
  }

  /** ORDER BY repeats and drops nothing. */
  lemma {:induction false} SortPermutes(items: seq<Item>)
    ensures multiset(Sort(items)) == multiset(items) && Ordered(Sort(items))
  {
    if items != [] {
      assert items == [items[0]] + items[1..];
      SortPermutes(items[1..]);
      PlacePermutes(items[0], Sort(items[1..]));
    }
  }

  /** DISTINCT ON (peer): the first row of each run of equal peers. */
  function FirstPerPeer(sorted: seq<Item>): seq<Item> {
    if |sorted| <= 1 then sorted
    else
      var init, last := sorted[..|sorted| - 1], sorted[|sorted| - 1];
      if last.peer == sorted[|sorted| - 2].peer then FirstPerPeer(init) else FirstPerPeer(init) + [last]
  }

  function GetConversations(t: Tables, uid: Uid): seq<Item> {
    FirstPerPeer(Sort(Joined(t.users, t.chats.rows, uid)))
  }

  ghost predicate Latest(items: seq<Item>, x: Item) {
    x in items && forall y :: y in items && y.peer == x.peer ==> y.lastId <= x.lastId
  }

  ghost predicate PeersAscend(items: seq<Item>) {
    forall i, j :: 0 <= i < j < |items| ==> items[i].peer < items[j].peer
  }

  ghost predicate IdsDetermine(items: seq<Item>) {
    forall x, y :: x in items && y in items && x.lastId == y.lastId && x.peer == y.peer ==> x == y
  }

  lemma SamePeerIsOlder(init: seq<Item>, prev: Item, last: Item)
    requires prev in init && prev.peer == last.peer && Before(prev, last)
    requires IdsDetermine(init + [last])
    ensures forall x :: Latest(init, x) <==> Latest(init + [last], x)
  {
  }

  lemma NewPeerIsLatest(init: seq<Item>, last: Item)
    requires forall y :: y in init ==> y.peer < last.peer
    ensures forall x :: Latest(init + [last], x) <==> x == last || Latest(init, x)
  {
  }

  lemma FirstsAreRows(sorted: seq<Item>)
    ensures forall x :: x in FirstPerPeer(sorted) ==> x in sorted
  {
  }

  /** Where the peer changes, everything before belongs to smaller peers. */
  lemma EarlierPeersAreSmaller(sorted: seq<Item>)
    requires Ordered(sorted) && |sorted| > 1 && sorted[|sorted| - 1].peer != sorted[|sorted| - 2].peer
    ensures forall y :: y in sorted[..|sorted| - 1] ==> y.peer < sorted[|sorted| - 1].peer
  {
  }

  lemma {:induction false} FirstsAscend(sorted: seq<Item>)
    requires Ordered(sorted)
    ensures PeersAscend(FirstPerPeer(sorted))
  {
    if |sorted| > 1 {
      var k := |sorted| - 1;
      var init := sorted[..k];
      FirstsAscend(init);
      FirstsAreRows(init);
      if sorted[k].peer != sorted[k - 1].peer {
        EarlierPeersAreSmaller(sorted);
        assert forall i :: 0 <= i < |FirstPerPeer(init)| ==> FirstPerPeer(init)[i] in FirstPerPeer(init);
      }
    }
  }

  lemma SubsetDetermines(init: seq<Item>, last: Item)
    requires IdsDetermine(init + [last])
    ensures IdsDetermine(init)
  {
  }

  lemma {:induction false} FirstIsLatest(sorted: seq<Item>)
    requires Ordered(sorted) && IdsDetermine(sorted)
    ensures forall x :: x in FirstPerPeer(sorted) <==> Latest(sorted, x)
  {
    if |sorted| <= 1 {
      assert forall x :: x in sorted ==> x == sorted[0];
    } else {
      FirstPerPeerStep(sorted);
    }
  }

  lemma {:induction false} FirstPerPeerStep(sorted: seq<Item>)
    requires Ordered(sorted) && IdsDetermine(sorted) && |sorted| > 1
    ensures forall x :: x in FirstPerPeer(sorted) <==> Latest(sorted, x)
    decreases sorted, 0
  {
    hide Latest, IdsDetermine;
    var k := |sorted| - 1;
    var init, prev, last := sorted[..k], sorted[k - 1], sorted[k];
    assert sorted == init + [last];
    SubsetDetermines(init, last);
    FirstIsLatest(init);
    assert prev == init[k - 1] && Before(prev, last);
    if last.peer == prev.peer {
      SamePeerIsOlder(init, prev, last);
      assert FirstPerPeer(sorted) == FirstPerPeer(init);
    } else {
      EarlierPeersAreSmaller(sorted);
      NewPeerIsLatest(init, last);
      assert FirstPerPeer(sorted) == FirstPerPeer(init) + [last];
    }
  }

  lemma IdsDetermineItems(t: Tables, uid: Uid)
    requires ValidTable(t.chats)
    ensures IdsDetermine(Joined(t.users, t.chats.rows, uid))
  {
  }

  /** The row is the last message between the user and an existing peer. */
  ghost predicate LastWithPeer(t: Tables, uid: Uid, r: Row<Chat>) {
    && r in t.chats.rows && Listed(t.users, r, uid)
    && forall q :: q in t.chats.rows && Listed(t.users, q, uid) && Peer(q, uid) == Peer(r, uid) ==> q.id <= r.id
  }

  lemma ItemsAreLatest(t: Tables, uid: Uid)
    requires ValidTable(t.chats)
    ensures PeersAscend(GetConversations(t, uid))
    ensures forall x :: x in GetConversations(t, uid) <==>
              exists r :: LastWithPeer(t, uid, r) && x == ItemOf(t.users, r, uid)
  {
    hide FirstPerPeer, ValidTable;
    var items := Joined(t.users, t.chats.rows, uid);
    IdsDetermineItems(t, uid);
    FirstIsLatest(Sort(items));
    FirstsAscend(Sort(items));
    forall x ensures Latest(items, x) <==> exists r :: LastWithPeer(t, uid, r) && x == ItemOf(t.users, r, uid) {
      if Latest(items, x) {
        var r :| r in t.chats.rows && Listed(t.users, r, uid) && x == ItemOf(t.users, r, uid);
        forall q | q in t.chats.rows && Listed(t.users, q, uid) && Peer(q, uid) == Peer(r, uid) ensures q.id <= r.id {
          assert ItemOf(t.users, q, uid) in items;
        }
        assert LastWithPeer(t, uid, r);
      }
      if r :| LastWithPeer(t, uid, r) && x == ItemOf(t.users, r, uid) {
        forall y | y in items && y.peer == x.peer ensures y.lastId <= x.lastId {
          var q :| q in t.chats.rows && Listed(t.users, q, uid) && y == ItemOf(t.users, q, uid);
        }
      }
    }
  }

  /** A row is listed under a peer if and only if the peer exists and the row is between the two. */
  lemma ListedIff(users: map<Uid, string>, r: Row<Chat>, uid: Uid, p: Uid)
    ensures Listed(users, r, uid) && Peer(r, uid) == p <==>
              p in users && ((r.body.from == uid && r.body.to == p) || (r.body.from == p && r.body.to == uid))
    ensures Listed(users, r, uid) ==>
              ItemOf(users, r, uid) == Item(Peer(r, uid), users[Peer(r, uid)], r.body.content, r.body.msgType, r.id)
  {
  }

  /** The last message between the two users, in either direction. */
  ghost predicate LastBetween(t: Tables, u: Uid, p: Uid, r: Row<Chat>) {
    && r in t.chats.rows
    && ((r.body.from == u && r.body.to == p) || (r.body.from == p && r.body.to == u))
    && forall q :: q in t.chats.rows ==>
         ((q.body.from == u && q.body.to == p) || (q.body.from == p && q.body.to == u) ==> q.id <= r.id)
  }

  lemma LastWithPeerIff(t: Tables, uid: Uid, r: Row<Chat>, p: Uid)
    ensures LastWithPeer(t, uid, r) && Peer(r, uid) == p <==> p in t.users && LastBetween(t, uid, p, r)
  {
    hide Listed, Peer;
    ListedIff(t.users, r, uid, p);
    ListedIff(t.users, r, uid, Peer(r, uid));
    forall q | q in t.chats.rows
      ensures Listed(t.users, q, uid) && Peer(q, uid) == p <==>
                p in t.users && ((q.body.from == uid && q.body.to == p) || (q.body.from == p && q.body.to == uid))
    {
      ListedIff(t.users, q, uid, p);
    }
  }

  /**
    One item per existing peer ever talked to, ordered by peer: it carries the peer's name and the
    content, type and id of the last message between the two.
   */
  lemma ConversationsAreLatest(t: Tables, uid: Uid)
    requires ValidTable(t.chats)
    ensures PeersAscend(GetConversations(t, uid))
    ensures forall x :: x in GetConversations(t, uid) <==>
              && x.peer in t.users && x.name == t.users[x.peer]
              && exists r :: LastBetween(t, uid, x.peer, r)
                   && x.lastMsg == r.body.content && x.lastType == r.body.msgType && x.lastId == r.id
  {
    ItemsAreLatest(t, uid);
    hide GetConversations, LastBetween;
    forall x, r: Row<Chat>
      ensures LastWithPeer(t, uid, r) && x == ItemOf(t.users, r, uid) <==>
                && x.peer in t.users && x.name == t.users[x.peer] && LastBetween(t, uid, x.peer, r)
                && x.lastMsg == r.body.content && x.lastType == r.body.msgType && x.lastId == r.id
    {
      LastWithPeerIff(t, uid, r, x.peer);
      ListedIff(t.users, r, uid, x.peer);
    }
  }

  lemma LastAfterMessage(t: Tables, t': Tables, u: Uid, p: Uid, r: Row<Chat>, q: Row<Chat>)
    requires forall x :: x in t.chats.rows ==> x.id < r.id
    requires forall x :: x in t'.chats.rows <==> x in t.chats.rows || x == r
    ensures LastBetween(t', u, p, q) <==>
              if (r.body.from == u && r.body.to == p) || (r.body.from == p && r.body.to == u) then q == r
              else LastBetween(t, u, p, q)
  {
  }

  /**
    A new message changes exactly the one item of its pair, which then shows that message, for
    both parties and for nobody else.
   */
  lemma NewMessageUpdatesOneItem(t: Tables, uid: Uid, c: Chat, cid: Option<string>, x: Item)
    requires ValidTable(t.chats) && !Conflicts(t.chats, cid)
    ensures var t' := t.(chats := Persist(t.chats, cid, c).0);
            x in GetConversations(t', uid) <==>
              if x.peer in t.users && ((c.from == uid && c.to == x.peer) || (c.from == x.peer && c.to == uid))
              then x == Item(x.peer, t.users[x.peer], c.content, c.msgType, t.chats.next)
              else x in GetConversations(t, uid)
  {
    var r := Row(t.chats.next, cid, c);
    var t' := t.(chats := Persist(t.chats, cid, c).0);
    PersistValid(t.chats, cid, c);
    ConversationsAreLatest(t, uid);
    ConversationsAreLatest(t', uid);
    assert forall q :: q in t'.chats.rows <==> q in t.chats.rows || q == r;
    assert forall q :: q in t.chats.rows ==> q.id < r.id;
    forall q ensures LastBetween(t', uid, x.peer, q) <==>
                       if (c.from == uid && c.to == x.peer) || (c.from == x.peer && c.to == uid) then q == r
                       else LastBetween(t, uid, x.peer, q)
    {
      LastAfterMessage(t, t', uid, x.peer, r, q);
    }
    hide GetConversations, LastBetween, Persist, ValidTable;
  }
}
