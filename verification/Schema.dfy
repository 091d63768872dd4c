/**
  The database of init.sql as a value, its keys and references, and every
  statement that src/dao.rs issues against it. Each statement is one atomic step.
 */
module Schema {
  import opened Base

  datatype Chat = Chat(from: Uid, to: Uid, content: string, msgType: nat, seen: bool)

  datatype Post = Post(gid: Gid, from: Uid, content: string, msgType: nat, readCount: nat)

  datatype Group = Group(owner: Uid, name: string)

  datatype Tables = Tables(
    users: map<Uid, string>,
    chats: Table<Chat>,
    readCursors: map<(Uid, Uid), nat>,
    groups: map<Gid, Group>,
    members: set<(Gid, Uid)>,
    posts: Table<Post>,
    cursors: map<(Uid, Gid), nat>,
    friends: set<(Uid, Uid)>)

  const EMPTY_TABLES := Tables(map[], Table([], 1), map[], map[], {}, Table([], 1), map[], {})

  /** UNIQUE (username), UNIQUE (owner_uid, name), and the keys of both message tables. */
  ghost predicate KeysHold(t: Tables) {
    && (forall u, v :: u in t.users && v in t.users && t.users[u] == t.users[v] ==> u == v)
    && (forall g, h :: g in t.groups && h in t.groups && t.groups[g] == t.groups[h] ==> g == h)
    && ValidTable(t.chats)
    && ValidTable(t.posts)
  }

  /** Every REFERENCES clause of init.sql. */
  ghost predicate ReferencesHold(t: Tables) {
    && (forall g :: g in t.groups ==> t.groups[g].owner in t.users)
    && (forall m :: m in t.members ==> m.0 in t.groups && m.1 in t.users)
    && (forall r :: r in t.posts.rows ==> r.body.gid in t.groups && r.body.from in t.users)
    && (forall c :: c in t.cursors ==> c.0 in t.users && c.1 in t.groups)
    && (forall f :: f in t.friends ==> f.0 in t.users && f.1 in t.users)
  }

  ghost predicate Valid(t: Tables) {
    KeysHold(t) && ReferencesHold(t)
  }

  // ----- statements -----

  /** `SELECT id ... WHERE client_msg_id = k`. */
  function FindClient<B>(rows: seq<Row<B>>, k: string): (r: Option<nat>)
    ensures r.None? <==> forall i :: 0 <= i < |rows| ==> rows[i].clientId != Some(k)
    ensures r.Some? ==> exists i :: 0 <= i < |rows| && rows[i].clientId == Some(k) && rows[i].id == r.value
  {
    if rows == [] then None
    else if rows[0].clientId == Some(k) then Some(rows[0].id)
    else
      var rest := rows[1..];
      assert forall i :: 0 < i < |rows| ==> rows[i] == rest[i - 1];
      FindClient(rest, k)
  }

  function Insert<B>(t: Table<B>, cid: Option<string>, body: B): (Table<B>, nat) {
    (Table(t.rows + [Row(t.next, cid, body)], t.next + 1), t.next)
  }

  /** A refused INSERT still consumes a value of the id sequence. */
  function BurnId<B>(t: Table<B>): Table<B> {
    t.(next := t.next + 1)
  }

  /** INSERT ... ON CONFLICT (client_msg_id) DO NOTHING, then the lookup of the existing row. */
  function Persist<B>(t: Table<B>, cid: Option<string>, body: B): (Table<B>, nat) {
    if cid.None? then Insert(t, cid, body)
    else
      match FindClient(t.rows, cid.value)
      case Some(id) => (BurnId(t), id)
      case None => Insert(t, cid, body)
  }

  predicate Conflicts<B>(t: Table<B>, cid: Option<string>) {
    cid.Some? && FindClient(t.rows, cid.value).Some?
  }

  function UnseenFrom(from: Uid, to: Uid): Row<Chat> -> bool {
    (r: Row<Chat>) => r.body.from == from && r.body.to == to && !r.body.seen
  }

  function SeeRow(r: Row<Chat>, from: Uid, to: Uid): Row<Chat> {
    if UnseenFrom(from, to)(r) then r.(body := r.body.(seen := true)) else r
  }

  /** UPDATE im_chat_messages SET seen = TRUE WHERE from, to, unseen. */
  function SeeRows(rows: seq<Row<Chat>>, from: Uid, to: Uid): seq<Row<Chat>> {
    seq(|rows|, i requires 0 <= i < |rows| => SeeRow(rows[i], from, to))
  }

  function Ids<B>(rows: seq<Row<B>>): seq<nat> {
    seq(|rows|, i requires 0 <= i < |rows| => rows[i].id)
  }

  /** RETURNING id of that UPDATE. */
  function UnseenIds(rows: seq<Row<Chat>>, from: Uid, to: Uid): seq<nat> {
    Ids(Filter(rows, UnseenFrom(from, to)))
  }

  /** The rows of statements 4 and 5 of the group read receipt. */
  function InDelta(gid: Gid, lo: nat, hi: nat, viewer: Uid): Row<Post> -> bool {
    (r: Row<Post>) => r.body.gid == gid && lo < r.id <= hi && r.body.from != viewer
  }

  function CountRow(r: Row<Post>, gid: Gid, lo: nat, hi: nat, viewer: Uid): Row<Post> {
    if InDelta(gid, lo, hi, viewer)(r) then r.(body := r.body.(readCount := r.body.readCount + 1)) else r
  }

  /** UPDATE im_group_messages SET read_count = read_count + 1 WHERE ... */
  function CountReads(rows: seq<Row<Post>>, gid: Gid, lo: nat, hi: nat, viewer: Uid): seq<Row<Post>> {
    seq(|rows|, i requires 0 <= i < |rows| => CountRow(rows[i], gid, lo, hi, viewer))
  }

  function InGroup(gid: Gid): Row<Post> -> bool {
    (r: Row<Post>) => r.body.gid == gid
  }

  /** SELECT MAX(id): in an id-ordered table, the last row of the group. */
  function MaxId(t: Tables, gid: Gid): Option<nat> {
    var rows := Filter(t.posts.rows, InGroup(gid));
    if rows == [] then None else Some(rows[|rows| - 1].id)
  }

  /** SELECT COALESCE(last_read_msg_id, 0): 0 when the row does not exist. */
  function Cursor(t: Tables, u: Uid, gid: Gid): nat {
    Get(t.cursors, (u, gid), 0)
  }

  datatype DeltaItem = DeltaItem(msgId: nat, from: Uid, read: nat, total: int)

  function MemberSet(t: Tables, gid: Gid): set<Uid> {
    set m | m in t.members && m.0 == gid :: m.1
  }

  /** COUNT(*) - 1 over the members: -1 once everybody has left. */
  function Total(t: Tables, gid: Gid): int {
    |MemberSet(t, gid)| - 1
  }

  function ToDelta(rows: seq<Row<Post>>, total: int): seq<DeltaItem> {
    seq(|rows|, i requires 0 <= i < |rows| => DeltaItem(rows[i].id, rows[i].body.from, rows[i].body.readCount, total))
  }

  function FetchDelta(t: Tables, gid: Gid, lo: nat, hi: nat, viewer: Uid): seq<DeltaItem> {
    ToDelta(Filter(t.posts.rows, InDelta(gid, lo, hi, viewer)), Total(t, gid))
  }

  /** The latest message of a group: one of its own, none newer; absent exactly when the group has none. */
  lemma MaxIdExact(t: Tables, gid: Gid)
    requires ValidTable(t.posts)
    ensures MaxId(t, gid).None? <==> forall r :: r in t.posts.rows ==> r.body.gid != gid
    ensures MaxId(t, gid).Some? ==>
              && (exists r :: r in t.posts.rows && r.body.gid == gid && r.id == MaxId(t, gid).value)
              && (forall r :: r in t.posts.rows && r.body.gid == gid ==> r.id <= MaxId(t, gid).value)
  {
    var rows := Filter(t.posts.rows, InGroup(gid));
    FilterAscending(t.posts.rows, InGroup(gid));
    forall r | r in t.posts.rows && r.body.gid == gid ensures rows != [] && r.id <= rows[|rows| - 1].id {
      var n :| 0 <= n < |rows| && rows[n] == r;
    }
    if rows != [] {
      assert rows[|rows| - 1] in rows;
    }
  }

  lemma MembersExact(t: Tables, gid: Gid)
    ensures forall u :: u in MemberSet(t, gid) <==> (gid, u) in t.members
  {
    forall u ensures u in MemberSet(t, gid) <==> (gid, u) in t.members {
      if (gid, u) in t.members {
        assert (gid, u).1 in MemberSet(t, gid);
      }
    }
  }

  datatype Stmt =
    | InsertUser(uid: Uid, name: string)
    | InsertChat(chat: Chat, cid: Option<string>)
    | MarkSeen(from: Uid, to: Uid)
    | UpsertReadCursor(uid: Uid, peer: Uid, upTo: nat)
    | InsertGroup(gid: Gid, group: Group)
    | InsertMember(gid: Gid, uid: Uid)
    | DeleteMember(gid: Gid, uid: Uid)
    | InsertPost(post: Post, cid: Option<string>)
    | UpsertCursor(uid: Uid, gid: Gid, upTo: nat)
    | IncrementReads(gid: Gid, lo: nat, hi: nat, viewer: Uid)
    | InsertFriend(uid: Uid, friend: Uid)
    | DeleteChatsOf(uid: Uid)
    | DeleteGroup(gid: Gid)
    | DeletePostsFrom(uid: Uid)
    | DeleteReadCursorsOf(uid: Uid)
    | DeleteUserRow(uid: Uid)

  /** Whether PostgreSQL accepts the statement: keys without ON CONFLICT, and references. */
  predicate Accepts(t: Tables, s: Stmt) {
    match s
    case InsertUser(u, name) => u !in t.users && name !in t.users.Values
    case InsertGroup(g, group) => g !in t.groups && group !in t.groups.Values && group.owner in t.users
    case InsertMember(g, u) => (g, u) in t.members || (g in t.groups && u in t.users)
    case InsertPost(p, cid) => Conflicts(t.posts, cid) || (p.gid in t.groups && p.from in t.users)
    case UpsertCursor(u, g, _) => u in t.users && g in t.groups
    case InsertFriend(u, f) => (u, f) in t.friends || (u in t.users && f in t.users)
    case DeleteUserRow(u) =>
      && (forall g | g in t.groups :: t.groups[g].owner != u)
      && (forall r | r in t.posts.rows :: r.body.from != u)
    case _ => true
  }

  function NotParty(u: Uid): Row<Chat> -> bool {
    (r: Row<Chat>) => r.body.from != u && r.body.to != u
  }

  function WithoutChats(t: Tables, u: Uid): Tables {
    t.(chats := t.chats.(rows := Filter(t.chats.rows, NotParty(u))))
  }

  function NotFrom(u: Uid): Row<Post> -> bool {
    (r: Row<Post>) => r.body.from != u
  }

  function WithoutPosts(t: Tables, u: Uid): Tables {
    t.(posts := t.posts.(rows := Filter(t.posts.rows, NotFrom(u))))
  }

  function WithoutReadCursors(t: Tables, u: Uid): Tables {
    t.(readCursors := map k | k in t.readCursors && k.0 != u && k.1 != u :: t.readCursors[k])
  }

  function OutsideGroup(g: Gid): Row<Post> -> bool {
    (r: Row<Post>) => r.body.gid != g
  }

  /** DELETE FROM im_groups cascades to members, messages and cursors. */
  function WithoutGroup(t: Tables, g: Gid): Tables {
    t.(groups := t.groups - {g},
       members := (set m | m in t.members && m.0 != g),
       posts := t.posts.(rows := Filter(t.posts.rows, OutsideGroup(g))),
       cursors := (map k | k in t.cursors && k.1 != g :: t.cursors[k]))
  }

  /** DELETE FROM im_users cascades to members, cursors and friends. */
  function WithoutUser(t: Tables, u: Uid): Tables {
    t.(users := t.users - {u},
       members := (set m | m in t.members && m.1 != u),
       cursors := (map k | k in t.cursors && k.0 != u :: t.cursors[k]),
       friends := (set f | f in t.friends && f.0 != u && f.1 != u))
  }

  /** The tables after an accepted statement, cascades included. */
  function Effect(t: Tables, s: Stmt): Tables
    requires Accepts(t, s)
  {
    match s
    case InsertUser(u, name) => t.(users := t.users[u := name])
    case InsertChat(c, cid) => t.(chats := Persist(t.chats, cid, c.(seen := false)).0)
    case MarkSeen(from, to) => t.(chats := t.chats.(rows := SeeRows(t.chats.rows, from, to)))
    case UpsertReadCursor(u, p, x) => t.(readCursors := t.readCursors[(u, p) := Max(Get(t.readCursors, (u, p), x), x)])
    case InsertGroup(g, group) => t.(groups := t.groups[g := group])
    case InsertMember(g, u) => t.(members := t.members + {(g, u)})
    case DeleteMember(g, u) => t.(members := t.members - {(g, u)})
    case InsertPost(p, cid) => t.(posts := Persist(t.posts, cid, p.(readCount := 0)).0)
    case UpsertCursor(u, g, x) => t.(cursors := t.cursors[(u, g) := Max(Get(t.cursors, (u, g), x), x)])
    case IncrementReads(g, lo, hi, v) => t.(posts := t.posts.(rows := CountReads(t.posts.rows, g, lo, hi, v)))
    case InsertFriend(u, f) => t.(friends := t.friends + {(u, f)})
    case DeleteChatsOf(u) => WithoutChats(t, u)
    case DeleteGroup(g) => WithoutGroup(t, g)
    case DeletePostsFrom(u) => WithoutPosts(t, u)
    case DeleteReadCursorsOf(u) => WithoutReadCursors(t, u)
    case DeleteUserRow(u) => WithoutUser(t, u)
  }

  /** A refused statement changes nothing, except that a refused INSERT consumes an id. */
  function Exec(t: Tables, s: Stmt): Tables {
    if Accepts(t, s) then Effect(t, s)
    else if s.InsertPost? then t.(posts := BurnId(t.posts))
    else t
  }

  // ----- every statement keeps the schema -----

  lemma PersistValid<B(!new)>(t: Table<B>, cid: Option<string>, body: B)
    requires ValidTable(t)
    ensures ValidTable(Persist(t, cid, body).0)
  {
    if !Conflicts(t, cid) {
      var added := Insert(t, cid, body).0;
      assert Ascending(added.rows);
      assert forall i :: 0 <= i < |t.rows| && t.rows[i].clientId.Some? ==> t.rows[i].clientId != cid;
    }
  }

  lemma DeleteGroupValid(t: Tables, g: Gid)
    requires Valid(t)
    ensures Valid(WithoutGroup(t, g))
  {
    FilterValidTable(t.posts, OutsideGroup(g));
  }

  lemma DeleteUserValid(t: Tables, u: Uid)
    requires Valid(t) && Accepts(t, DeleteUserRow(u))
    ensures Valid(WithoutUser(t, u))
  {
  }

  lemma CountReadsKeepsBody(rows: seq<Row<Post>>, gid: Gid, lo: nat, hi: nat, viewer: Uid)
    ensures forall r :: r in CountReads(rows, gid, lo, hi, viewer) ==>
              exists q :: q in rows && q.body.gid == r.body.gid && q.body.from == r.body.from
  {
  }

  lemma PersistBodies<B(!new)>(t: Table<B>, cid: Option<string>, body: B, r: Row<B>)
    requires r in Persist(t, cid, body).0.rows
    ensures r in t.rows || (r.body == body && !Conflicts(t, cid))
  {
  }

  lemma SeeRowsValid(t: Table<Chat>, from: Uid, to: Uid)
    requires ValidTable(t)
    ensures ValidTable(t.(rows := SeeRows(t.rows, from, to)))
  {
  }

  lemma CountReadsValid(t: Table<Post>, gid: Gid, lo: nat, hi: nat, viewer: Uid)
    requires ValidTable(t)
    ensures ValidTable(t.(rows := CountReads(t.rows, gid, lo, hi, viewer)))
  {
  }

  lemma ExecChatKeys(t: Tables, s: Stmt)
    requires ValidTable(t.chats) && Accepts(t, s)
    ensures ValidTable(Effect(t, s).chats)
  {
    hide ValidTable, Persist, Filter;
    match s
    case InsertChat(c, cid) => PersistValid(t.chats, cid, c.(seen := false));
    case MarkSeen(from, to) => SeeRowsValid(t.chats, from, to);
    case DeleteChatsOf(u) => FilterValidTable(t.chats, NotParty(u));
    case _ =>
  }

  lemma ExecPostKeys(t: Tables, s: Stmt)
    requires ValidTable(t.posts) && Accepts(t, s)
    ensures ValidTable(Effect(t, s).posts)
  {
    hide ValidTable, Persist, Filter;
    match s
    case InsertPost(p, cid) => PersistValid(t.posts, cid, p.(readCount := 0));
    case IncrementReads(g, lo, hi, v) => CountReadsValid(t.posts, g, lo, hi, v);
    case DeletePostsFrom(u) => FilterValidTable(t.posts, NotFrom(u));
    case DeleteGroup(g) => FilterValidTable(t.posts, OutsideGroup(g));
    case _ =>
  }

  lemma InsertPostReferences(t: Tables, p: Post, cid: Option<string>)
    requires Valid(t) && Accepts(t, InsertPost(p, cid))
    ensures ReferencesHold(Effect(t, InsertPost(p, cid)))
  {
    var q := p.(readCount := 0);
    forall r | r in Persist(t.posts, cid, q).0.rows ensures r.body.gid in t.groups && r.body.from in t.users {
      PersistBodies(t.posts, cid, q, r);
    }
  }

  lemma ExecReferences(t: Tables, s: Stmt)
    requires Valid(t) && Accepts(t, s)
    ensures ReferencesHold(Effect(t, s))
  {
    match s
    case InsertPost(p, cid) => InsertPostReferences(t, p, cid);
    case IncrementReads(g, lo, hi, v) => CountReadsKeepsBody(t.posts.rows, g, lo, hi, v);
    case DeleteGroup(g) => DeleteGroupValid(t, g);
    case DeleteUserRow(u) => DeleteUserValid(t, u);
    case _ =>
  }

  lemma RefusedValid(t: Tables, s: Stmt)
    requires Valid(t) && !Accepts(t, s)
    ensures Valid(Exec(t, s))
  {
  }

  lemma ExecNames(t: Tables, s: Stmt)
    requires Valid(t) && Accepts(t, s)
    ensures var t' := Effect(t, s);
            && (forall u, v :: u in t'.users && v in t'.users && t'.users[u] == t'.users[v] ==> u == v)
            && (forall g, h :: g in t'.groups && h in t'.groups && t'.groups[g] == t'.groups[h] ==> g == h)
  {
    hide ReferencesHold, ValidTable;
  }

  /** Whatever statement runs next, accepted or refused, the keys and references of init.sql still hold. */
  lemma ExecValid(t: Tables, s: Stmt)
    requires Valid(t)
    ensures Valid(Exec(t, s))
  {
    if Accepts(t, s) {
      ExecChatKeys(t, s);
      ExecPostKeys(t, s);
      ExecReferences(t, s);
      ExecNames(t, s);
      hide ValidTable, ReferencesHold, Effect, Accepts;
    } else {
      hide ReferencesHold;
      RefusedValid(t, s);
    }
  }
}
