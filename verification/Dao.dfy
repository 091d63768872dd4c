/**
  src/dao.rs over the tables of init.sql: the operations that change tables, statement by
  statement, proved against the table functions the protocols are about.
 */
module Dao {
  import opened Base
  import opened Schema
  import opened Deletion
  import Pagination
  import Receipts
  import SeenReports

  /** The new versions of the rows and the ids of those that were unseen. */
  method MarkRows(rows: seq<Row<Chat>>, from: Uid, to: Uid) returns (out: seq<Row<Chat>>, ids: seq<nat>)
    ensures out == SeeRows(rows, from, to)
    ensures ids == UnseenIds(rows, from, to)
  {
    out, ids := [], [];
    for i := 0 to |rows|
      invariant out == SeeRows(rows[..i], from, to)
      invariant ids == UnseenIds(rows[..i], from, to)
    {
      assert rows[..i + 1] == rows[..i] + [rows[i]];
      FilterAppend(rows[..i], rows[i], UnseenFrom(from, to));
      var m := rows[i].body;
      if m.from == from && m.to == to && !m.seen {
        out := out + [rows[i].(body := m.(seen := true))];
        ids := ids + [rows[i].id];
      } else {
        out := out + [rows[i]];
      }
    }
    assert rows[..|rows|] == rows;
  }

  /** The new versions of the rows and how many were counted. */
  method IncrementRows(rows: seq<Row<Post>>, gid: Gid, lo: nat, hi: nat, viewer: Uid)
    returns (out: seq<Row<Post>>, affected: nat)
    ensures out == CountReads(rows, gid, lo, hi, viewer)
    ensures affected == |Filter(rows, InDelta(gid, lo, hi, viewer))|
  {
    out, affected := [], 0;
    for i := 0 to |rows|
      invariant out == CountReads(rows[..i], gid, lo, hi, viewer)
      invariant affected == |Filter(rows[..i], InDelta(gid, lo, hi, viewer))|
    {
      assert rows[..i + 1] == rows[..i] + [rows[i]];
      FilterAppend(rows[..i], rows[i], InDelta(gid, lo, hi, viewer));
      var p := rows[i].body;
      if p.gid == gid && lo < rows[i].id <= hi && p.from != viewer {
        out := out + [rows[i].(body := p.(readCount := p.readCount + 1))];
        affected := affected + 1;
      } else {
        out := out + [rows[i]];
      }
    }
    assert rows[..|rows|] == rows;
  }

  class Database {
    var users: map<Uid, string>
    var chats: Table<Chat>
    var readCursors: map<(Uid, Uid), nat>
    var groups: map<Gid, Group>
    var members: set<(Gid, Uid)>
    var posts: Table<Post>
    var cursors: map<(Uid, Gid), nat>
    var friends: set<(Uid, Uid)>

    function View(): Tables
      reads this
    {
      Tables(users, chats, readCursors, groups, members, posts, cursors, friends)
    }

    ghost predicate Valid()
      reads this
    {
      Schema.Valid(View())
    }

    constructor ()
      ensures Valid() && View() == EMPTY_TABLES
    {
      users, readCursors, groups, members, cursors, friends := map[], map[], map[], {}, map[], {};
      chats, posts := Table([], 1), Table([], 1);
    }

    method PersistChatMessage(from: Uid, to: Uid, content: string, msgType: nat, cid: Option<string>) returns (id: nat)
      requires Valid()
      modifies this
      ensures Valid()
      ensures View() == old(View()).(chats := Persist(old(chats), cid, Chat(from, to, content, msgType, false)).0)
      ensures View() == Exec(old(View()), InsertChat(Chat(from, to, content, msgType, false), cid))
      ensures id == Persist(old(chats), cid, Chat(from, to, content, msgType, false)).1
    {
      hide Schema.Valid;
      var row := Chat(from, to, content, msgType, false);
      ghost var before := View();
      ExecValid(before, InsertChat(row, cid));
      if cid.Some? {
        var existing := FindClient(chats.rows, cid.value);
        if existing.Some? {
          chats := BurnId(chats);
          return existing.value;
        }
      }
      id := chats.next;
      chats := Table(chats.rows + [Row(id, cid, row)], id + 1);
    }

    /** Err: the group or the sender does not exist; the id is consumed all the same. */
    method PersistGroupMessage(gid: Gid, from: Uid, content: string, msgType: nat, cid: Option<string>)
      returns (r: Result<nat>)
      requires Valid()
      modifies this
      ensures Valid()
      ensures View() == Exec(old(View()), InsertPost(Post(gid, from, content, msgType, 0), cid))
      ensures r == if Accepts(old(View()), InsertPost(Post(gid, from, content, msgType, 0), cid))
                   then Ok(Persist(old(posts), cid, Post(gid, from, content, msgType, 0)).1) else Err
      ensures r.Err? <==> (gid !in groups || from !in users)
                          && !(cid.Some? && exists q :: q in old(posts).rows && q.clientId == cid)
      ensures View() == old(View()).(posts := if r.Err? then BurnId(old(posts))
                                              else Persist(old(posts), cid, Post(gid, from, content, msgType, 0)).0)
      ensures posts.next == old(posts).next + 1
    {
      hide Schema.Valid;
      var row := Post(gid, from, content, msgType, 0);
      ghost var before := View();
      ExecValid(before, InsertPost(row, cid));
      if cid.Some? {
        var existing := FindClient(posts.rows, cid.value);
        if existing.Some? {
          posts := BurnId(posts);
          return Ok(existing.value);
        }
      }
      var id := posts.next;
      posts := BurnId(posts);
      if gid !in groups || from !in users {
        return Err;
      }
      posts := Table(posts.rows + [Row(id, cid, row)], posts.next);
      return Ok(id);
    }

    /** UPDATE ... SET seen = TRUE ... RETURNING id. */
    method MarkSeenFromPeer(from: Uid, to: Uid) returns (ids: seq<nat>)
      requires Valid()
      modifies this
      ensures Valid()
      ensures View() == Exec(old(View()), MarkSeen(from, to))
      ensures ids == UnseenIds(old(chats).rows, from, to)
      ensures forall id :: id in ids <==>
                exists r :: r in old(chats).rows && r.id == id && r.body.from == from && r.body.to == to && !r.body.seen
      ensures forall r :: r in chats.rows && r.body.from == from && r.body.to == to ==> r.body.seen
    {
      SeenReports.UnseenIdsExact(chats, from, to);
      SeenReports.MarkSeenExact(View(), from, to);
      hide Schema.Valid;
      ExecValid(View(), MarkSeen(from, to));
      var rows;
      rows, ids := MarkRows(chats.rows, from, to);
      chats := chats.(rows := rows);
    }

    /** Seen-marking first, then one page of the conversation as it now stands; Err drops the marked ids. */
    method GetChatHistory(a: Uid, b: Uid, before: Option<nat>, limit: int)
      returns (r: Result<(seq<Row<Chat>>, seq<nat>)>)
      requires Valid()
      modifies this
      ensures Valid()
      ensures View() == Exec(old(View()), MarkSeen(b, a))
      ensures match Pagination.Page(Pagination.ChatView(View(), a, b), before, limit)
              case Err => r.Err?
              case Ok(items) => r == Ok((items, UnseenIds(old(chats).rows, b, a)))
    {
      var seenIds := MarkSeenFromPeer(b, a);
      var page := Pagination.Page(Pagination.ChatView(View(), a, b), before, limit);
      return if page.Ok? then Ok((page.value, seenIds)) else Err;
    }

    /** Written like its group counterpart, without references to check; no handler calls it. */
    method UpsertReadCursor(uid: Uid, peer: Uid, upTo: nat)
      requires Valid()
      modifies this
      ensures Valid()
      ensures View() == Exec(old(View()), Stmt.UpsertReadCursor(uid, peer, upTo))
      ensures View() == old(View()).(readCursors :=
                if (uid, peer) in old(readCursors) && upTo < old(readCursors)[(uid, peer)] then old(readCursors)
                else old(readCursors)[(uid, peer) := upTo])
    {
      hide Schema.Valid;
      ExecValid(View(), Stmt.UpsertReadCursor(uid, peer, upTo));
      var greatest := if (uid, peer) in readCursors then Max(readCursors[(uid, peer)], upTo) else upTo;
      readCursors := readCursors[(uid, peer) := greatest];
    }

    method UpsertGroupReadCursor(uid: Uid, gid: Gid, upTo: nat) returns (ok: bool)
      requires Valid()
      modifies this
      ensures Valid()
      ensures ok == (uid in users && gid in groups)
      ensures View() == old(View()).(cursors :=
                if !ok then old(cursors)
                else if (uid, gid) in old(cursors) && upTo < old(cursors)[(uid, gid)] then old(cursors)
                else old(cursors)[(uid, gid) := upTo])
      ensures View() == Exec(old(View()), UpsertCursor(uid, gid, upTo))
    {
      hide Schema.Valid;
      ExecValid(View(), UpsertCursor(uid, gid, upTo));
      if uid !in users || gid !in groups {
        return false;
      }
      var greatest := if (uid, gid) in cursors then Max(cursors[(uid, gid)], upTo) else upTo;
      cursors := cursors[(uid, gid) := greatest];
      return true;
    }

    /** The UPDATE of statement 4, with the number of rows affected. */
    method IncrementReadCounts(gid: Gid, lo: nat, hi: nat, viewer: Uid) returns (affected: nat)
      requires Valid()
      modifies this
      ensures Valid()
      ensures View() == Exec(old(View()), IncrementReads(gid, lo, hi, viewer))
      ensures affected == |Filter(old(posts).rows, InDelta(gid, lo, hi, viewer))|
    {
      hide Schema.Valid;
      ExecValid(View(), IncrementReads(gid, lo, hi, viewer));
      var rows;
      rows, affected := IncrementRows(posts.rows, gid, lo, hi, viewer);
      posts := posts.(rows := rows);
    }

    /** The SELECT of statement 5, in id order. */
    method FetchDeltaRows(gid: Gid, lo: nat, hi: nat, viewer: Uid) returns (delta: seq<DeltaItem>)
      ensures delta == FetchDelta(View(), gid, lo, hi, viewer)
    {
      var rows := posts.rows;
      var total := Total(View(), gid);
      delta := [];
      for i := 0 to |rows|
        invariant delta == ToDelta(Filter(rows[..i], InDelta(gid, lo, hi, viewer)), total)
      {
        assert rows[..i + 1] == rows[..i] + [rows[i]];
        FilterAppend(rows[..i], rows[i], InDelta(gid, lo, hi, viewer));
        var p := rows[i].body;
        if p.gid == gid && lo < rows[i].id <= hi && p.from != viewer {
          delta := delta + [DeltaItem(rows[i].id, p.from, p.readCount, total)];
        }
      }
      assert rows[..|rows|] == rows;
    }

    /** The five statements with nothing in between; Err: the viewer or the group no longer exists. */
    method MarkGroupReadAndGetDelta(gid: Gid, viewer: Uid) returns (r: Result<seq<DeltaItem>>)
      requires Valid()
      modifies this
      ensures Valid()
      ensures View() == Receipts.MarkedRead(old(View()), gid, viewer)
      ensures r == Receipts.MarkReadAnswer(old(View()), gid, viewer)
    {
      hide Schema.Valid, MaxId, Exec, Accepts, CountReads;
      var latest := MaxId(View(), gid);
      if latest.None? {
        return Ok([]);
      }
      hide Receipts.MarkedRead, Receipts.MarkReadAnswer;
      Receipts.WritesOfMarkRead(View(), gid, viewer, latest.value);
      var oldCursor := Cursor(View(), viewer, gid);
      var ok := UpsertGroupReadCursor(viewer, gid, latest.value);
      if !ok {
        return Err;
      }
      var affected := IncrementReadCounts(gid, oldCursor, latest.value, viewer);
      if affected == 0 {
        Receipts.NothingCounted(old(posts).rows, gid, oldCursor, latest.value, viewer);
        assert posts.rows == CountReads(old(posts).rows, gid, oldCursor, latest.value, viewer);
        assert FetchDelta(View(), gid, oldCursor, latest.value, viewer) == [];
        return Ok([]);
      }
      var delta := FetchDeltaRows(gid, oldCursor, latest.value, viewer);
      return Ok(delta);
    }

    /**
      The duplicate-name check, the group row, then its owner as first member; `gid` is the fresh
      UUID. The two inserts are separate statements: when the second fails, the group stays
      behind without its owner as a member.
     */
    method CreateGroup(gid: Gid, name: string, owner: Uid, memberFails: bool) returns (r: Result<Gid>)
      requires Valid()
      modifies this
      ensures Valid()
      ensures var accepted := gid !in old(groups) && Group(owner, name) !in old(groups).Values && owner in users;
              && r == (if accepted && !memberFails then Ok(gid) else Err)
              && View() == old(View()).(
                   groups := if accepted then old(groups)[gid := Group(owner, name)] else old(groups),
                   members := if accepted && !memberFails then old(members) + {(gid, owner)} else old(members))
    {
      hide Schema.Valid;
      ghost var before := View();
      ExecValid(before, InsertGroup(gid, Group(owner, name)));
      ExecValid(Exec(before, InsertGroup(gid, Group(owner, name))), InsertMember(gid, owner));
      if Group(owner, name) in groups.Values {
        return Err;
      }
      if gid in groups || owner !in users {
        return Err;
      }
      groups := groups[gid := Group(owner, name)];
      if memberFails {
        return Err;
      }
      members := members + {(gid, owner)};
      return Ok(gid);
    }

    /** Ok(true): newly joined. Ok(false): already a member. */
    method JoinGroup(gid: Gid, uid: Uid) returns (r: Result<bool>)
      requires Valid()
      modifies this
      ensures Valid()
      ensures r.Err? <==> gid !in groups || uid !in users
      ensures r.Ok? ==> r.value == ((gid, uid) !in old(members))
      ensures View() == old(View()).(members := if r.Ok? then old(members) + {(gid, uid)} else old(members))
      ensures View() == Exec(old(View()), InsertMember(gid, uid))
    {
      ExecValid(View(), InsertMember(gid, uid));
      assert (gid, uid) in members ==> (gid, uid).0 in groups && (gid, uid).1 in users;
      hide Schema.Valid;
      if (gid, uid) in members {
        assert members == members + {(gid, uid)};
        return Ok(false);
      }
      if gid !in groups || uid !in users {
        return Err;
      }
      members := members + {(gid, uid)};
      return Ok(true);
    }

    method LeaveGroup(gid: Gid, uid: Uid)
      requires Valid()
      modifies this
      ensures Valid()
      ensures View() == old(View()).(members := old(members) - {(gid, uid)})
      ensures View() == Exec(old(View()), DeleteMember(gid, uid))
    {
      hide Schema.Valid;
      ExecValid(View(), DeleteMember(gid, uid));
      members := members - {(gid, uid)};
    }

    /** Both directions in one transaction, after the handler's self-check. */
    method AddFriend(uid: Uid, friend: Uid) returns (r: Result<bool>)
      requires Valid()
      modifies this
      ensures Valid()
      ensures r.Ok? <==> uid != friend && uid in users && friend in users
      ensures View() == if r.Ok? then old(View()).(friends := old(friends) + {(uid, friend), (friend, uid)}) else old(View())
    {
      hide Schema.Valid;
      ghost var before := View();
      if uid == friend {
        return Err;
      }
      if uid !in users || friend !in users {
        return Err;
      }
      ExecValid(before, InsertFriend(uid, friend));
      ExecValid(Exec(before, InsertFriend(uid, friend)), InsertFriend(friend, uid));
      friends := friends + {(uid, friend)} + {(friend, uid)};
      assert friends == old(friends) + {(uid, friend), (friend, uid)};
      return Ok(true);
    }

    /** DELETE FROM im_groups with its cascades. */
    method DeleteGroupRow(gid: Gid)
      modifies this
      ensures View() == WithoutGroup(old(View()), gid)
    {
      groups := groups - {gid};
      members := set m | m in members && m.0 != gid;
      posts := posts.(rows := Filter(posts.rows, OutsideGroup(gid)));
      cursors := map k | k in cursors && k.1 != gid :: cursors[k];
    }

    /** Find the owned groups, then delete them one by one, in whatever order the query returned them. */
    method DeleteOwnedGroups(uid: Uid)
      modifies this
      ensures View() == WithoutGroups(old(View()), OwnedGroups(old(View()), uid))
    {
      var owned := OwnedGroups(View(), uid);
      ghost var before, gone: set<Gid> := View(), {};
      NoGroupsDeleted(before);
      hide WithoutGroups, WithoutGroup;
      while owned != {}
        invariant OwnedGroups(before, uid) == gone + owned && gone !! owned
        invariant View() == WithoutGroups(before, gone)
        decreases owned
      {
        var gid :| gid in owned;
        OneMoreGroup(before, gone, gid);
        DeleteGroupRow(gid);
        owned, gone := owned - {gid}, gone + {gid};
      }
    }

    /** The last statement: refused while a group or a group message still refers to the user. */
    method DeleteUserRecord(uid: Uid) returns (r: Result<bool>)
      modifies this
      ensures r == if Accepts(old(View()), DeleteUserRow(uid)) then Ok(true) else Err
      ensures View() == if r.Ok? then WithoutUser(old(View()), uid) else old(View())
    {
      if !Accepts(View(), DeleteUserRow(uid)) {
        return Err;
      }
      users := users - {uid};
      members := set m | m in members && m.1 != uid;
      cursors := map k | k in cursors && k.0 != uid :: cursors[k];
      friends := set f | f in friends && f.0 != uid && f.1 != uid;
      return Ok(true);
    }

    /** The ordered statements of account deletion; Err would be a refused reference. */
    method DeleteUser(uid: Uid) returns (r: Result<bool>)
      requires Valid()
      modifies this
      ensures r.Ok? && Valid()
      ensures View() == Purge(old(View()), uid)
    {
      hide Schema.Valid, Purge, Names, WithoutGroups, WithoutUser, OwnedGroups, Accepts;
      ghost var before := View();
      LastStatementAccepted(before, uid);
      OrderedDeletionIsPurge(before, uid);
      PurgeErasesExactly(before, uid);
      chats := chats.(rows := Filter(chats.rows, NotParty(uid)));
      DeleteOwnedGroups(uid);
      posts := posts.(rows := Filter(posts.rows, NotFrom(uid)));
      readCursors := map k | k in readCursors && k.0 != uid && k.1 != uid :: readCursors[k];
      r := DeleteUserRecord(uid);
    }
  }
}
