/**
  delete_user while other handlers keep running: its statements are steps, and any other
  statement may run between them.
 */
module Interference {
  import opened Base
  import opened Schema
  import opened Deletion

  /** The statement to be run next. `left`: the owned groups found and not yet deleted. */
  datatype Phase =
    | DeletingChats
    | FindingGroups
    | DeletingGroups(left: set<Gid>)
    | DeletingReadCursors
    | DeletingUser
    | Succeeded
    | Refused

  /**
    History: what mentions the user, was written after the deletion had passed its table, and
    has not gone since - messages by id, groups by id, read cursors by key.
   */
  datatype State = State(
    db: Tables,
    phase: Phase,
    lateChats: set<nat>,
    lateGroups: set<Gid>,
    latePosts: set<nat>,
    lateCursors: set<(Uid, Uid)>)

  datatype Event = Next(g: Gid) | Other(stmt: Stmt)

  function Start(t: Tables): State {
    State(t, DeletingChats, {}, {}, {}, {})
  }

  /** The next statement of delete_user; `g` is the group taken next from those found, in whatever order. */
  function Advance(s: State, u: Uid, g: Gid): State {
    match s.phase
    case DeletingChats => s.(db := WithoutChats(s.db, u), phase := FindingGroups)
    case FindingGroups => s.(phase := DeletingGroups(OwnedGroups(s.db, u)))
    case DeletingGroups(left) =>
      if left == {} then s.(db := WithoutPosts(s.db, u), phase := DeletingReadCursors)
      else if g in left then s.(db := WithoutGroup(s.db, g), phase := DeletingGroups(left - {g}))
      else s
    case DeletingReadCursors => s.(db := WithoutReadCursors(s.db, u), phase := DeletingUser)
    case DeletingUser =>
      if Accepts(s.db, DeleteUserRow(u)) then s.(db := WithoutUser(s.db, u), phase := Succeeded)
      else s.(phase := Refused)
    case _ => s
  }

  predicate ChatsPassed(s: State) {
    !s.phase.DeletingChats?
  }

  predicate GroupsPassed(s: State) {
    !s.phase.DeletingChats? && !s.phase.FindingGroups?
  }

  predicate ReadCursorsPassed(s: State) {
    s.phase.DeletingUser? || s.phase.Succeeded? || s.phase.Refused?
  }

  predicate PostsPassed(s: State) {
    s.phase.DeletingReadCursors? || ReadCursorsPassed(s)
  }

  /** The chat, group, post or read cursor that an accepted statement of another handler writes for the user. */
  function WrittenChat(t: Tables, u: Uid, stmt: Stmt): set<nat> {
    if stmt.InsertChat? && (stmt.chat.from == u || stmt.chat.to == u) && !Conflicts(t.chats, stmt.cid)
    then {t.chats.next} else {}
  }

  function WrittenGroup(t: Tables, u: Uid, stmt: Stmt): set<Gid> {
    if stmt.InsertGroup? && stmt.group.owner == u && Accepts(t, stmt) then {stmt.gid} else {}
  }

  function WrittenPost(t: Tables, u: Uid, stmt: Stmt): set<nat> {
    if stmt.InsertPost? && stmt.post.from == u && Accepts(t, stmt) && !Conflicts(t.posts, stmt.cid)
    then {t.posts.next} else {}
  }

  function WrittenCursor(u: Uid, stmt: Stmt): set<(Uid, Uid)> {
    if stmt.UpsertReadCursor? && (stmt.uid == u || stmt.peer == u) then {(stmt.uid, stmt.peer)} else {}
  }

  function IdSet<B>(rows: seq<Row<B>>): set<nat> {
    set n | 0 <= n < |rows| :: rows[n].id
  }

  /** Late rows that have been deleted again no longer count. */
  function Surviving(s: State): State {
    s.(lateChats := s.lateChats * IdSet(s.db.chats.rows),
       lateGroups := s.lateGroups * s.db.groups.Keys,
       latePosts := s.latePosts * IdSet(s.db.posts.rows),
       lateCursors := s.lateCursors * s.db.readCursors.Keys)
  }

  function Interfere(s: State, u: Uid, stmt: Stmt): State {
    s.(db := Exec(s.db, stmt),
       lateChats := s.lateChats + if ChatsPassed(s) then WrittenChat(s.db, u, stmt) else {},
       lateGroups := s.lateGroups + if GroupsPassed(s) then WrittenGroup(s.db, u, stmt) else {},
       latePosts := s.latePosts + if PostsPassed(s) then WrittenPost(s.db, u, stmt) else {},
       lateCursors := s.lateCursors + if ReadCursorsPassed(s) then WrittenCursor(u, stmt) else {})
  }

  /** UUIDs of new users are fresh, so nobody registers under the user's own. */
  predicate Allowed(u: Uid, stmt: Stmt) {
    stmt.InsertUser? ==> stmt.uid != u
  }

  function Step(s: State, u: Uid, e: Event): State {
    match e
    case Next(g) => Surviving(Advance(s, u, g))
    case Other(stmt) => if Allowed(u, stmt) then Surviving(Interfere(s, u, stmt)) else s
  }

  function Run(s: State, u: Uid, events: seq<Event>): State {
    if events == [] then s else Step(Run(s, u, events[..|events| - 1]), u, events[|events| - 1])
  }

  // ----- what still names the user, and why -----

  function ChatNames(u: Uid): Row<Chat> -> bool {
    (r: Row<Chat>) => r.body.from == u || r.body.to == u
  }

  function PostNames(u: Uid): Row<Post> -> bool {
    (r: Row<Post>) => r.body.from == u
  }

  /** Late ids belong to rows naming the user; past its deletion, a table has no other such rows. */
  ghost predicate LateExact<B(!new)>(rows: seq<Row<B>>, passed: bool, late: set<nat>, names: Row<B> -> bool) {
    && (forall r :: r in rows && passed && names(r) ==> r.id in late)
    && (forall id :: id in late ==> exists r :: r in rows && r.id == id && names(r))
  }

  ghost predicate GroupsInv(s: State, u: Uid) {
    && (forall g :: GroupsPassed(s) && Owned(s.db, u, g) ==>
          g in s.lateGroups || (s.phase.DeletingGroups? && g in s.phase.left))
    && (forall g :: g in s.lateGroups ==> Owned(s.db, u, g))
  }

  ghost predicate CursorsInv(s: State, u: Uid) {
    && (forall k :: k in s.db.readCursors && ReadCursorsPassed(s) && (k.0 == u || k.1 == u) ==> k in s.lateCursors)
    && (forall k :: k in s.lateCursors ==> k in s.db.readCursors && (k.0 == u || k.1 == u))
  }

  ghost predicate Inv(s: State, u: Uid) {
    && Valid(s.db)
    && (s.phase.Succeeded? ==> u !in s.db.users)
    && LateExact(s.db.chats.rows, ChatsPassed(s), s.lateChats, ChatNames(u))
    && GroupsInv(s, u)
    && LateExact(s.db.posts.rows, PostsPassed(s), s.latePosts, PostNames(u))
    && CursorsInv(s, u)
  }

  /** Each row is an older row under the same id, or the row just written. */
  ghost predicate Descends<B(!new)>(t: Table<B>, t': Table<B>, written: set<nat>, names: Row<B> -> bool) {
    && written <= {t.next}
    && forall r :: r in t'.rows ==>
         || (exists q :: q in t.rows && q.id == r.id && (names(q) <==> names(r)))
         || (r.id == t.next && (names(r) <==> r.id in written))
  }

  lemma IdInRows<B>(rows: seq<Row<B>>, r: Row<B>)
    requires r in rows
    ensures r.id in IdSet(rows)
  {
    var n :| 0 <= n < |rows| && rows[n] == r;
  }

  lemma RowOfId<B>(rows: seq<Row<B>>, id: nat) returns (r: Row<B>)
    requires id in IdSet(rows)
    ensures r in rows && r.id == id
  {
    var n :| 0 <= n < |rows| && rows[n].id == id;
    r := rows[n];
  }

  /** A late id that is still there still belongs to a row naming the user. */
  lemma StillNames<B(!new)>(t: Table<B>, t': Table<B>, late: set<nat>, written: set<nat>, names: Row<B> -> bool, r: Row<B>)
    requires ValidTable(t) && LateExact(t.rows, false, late, names) && Descends(t, t', written, names)
    requires r in t'.rows && (r.id in late || r.id in written)
    ensures names(r)
  {
    assert forall q :: q in t.rows ==> q.id < t.next;
    if r.id in late {
      var q :| q in t.rows && q.id == r.id && names(q);
      if o :| o in t.rows && o.id == r.id && (names(o) <==> names(r)) {
        SameIdSameRow(t, o, q);
      }
    }
  }

  lemma LateStep<B(!new)>(t: Table<B>, t': Table<B>, passed: bool, late: set<nat>, written: set<nat>, names: Row<B> -> bool)
    requires ValidTable(t) && LateExact(t.rows, passed, late, names) && Descends(t, t', written, names)
    ensures LateExact(t'.rows, passed, (late + if passed then written else {}) * IdSet(t'.rows), names)
  {
    var late' := (late + if passed then written else {}) * IdSet(t'.rows);
    forall r | r in t'.rows && passed && names(r) ensures r.id in late' {
      IdInRows(t'.rows, r);
    }
    hide ValidTable, IdSet;
    forall id | id in late' ensures exists r :: r in t'.rows && r.id == id && names(r) {
      var r := RowOfId(t'.rows, id);
      StillNames(t, t', late, written, names, r);
    }
  }

  lemma ChatsDescend(t: Tables, u: Uid, stmt: Stmt)
    ensures Descends(t.chats, Exec(t, stmt).chats, WrittenChat(t, u, stmt), ChatNames(u))
  {
  }

  lemma PostsDescend(t: Tables, u: Uid, stmt: Stmt)
    ensures Descends(t.posts, Exec(t, stmt).posts, WrittenPost(t, u, stmt), PostNames(u))
  {
  }

  lemma TablesValid(t: Tables)
    requires Valid(t)
    ensures ValidTable(t.chats) && ValidTable(t.posts)
  {
  }

  lemma InterfereGroups(s: State, u: Uid, stmt: Stmt)
    requires GroupsInv(s, u) && Allowed(u, stmt)
    ensures GroupsInv(Surviving(Interfere(s, u, stmt)), u)
    ensures u !in s.db.users ==> u !in Exec(s.db, stmt).users
  {
  }

  lemma InterfereCursors(s: State, u: Uid, stmt: Stmt)
    requires CursorsInv(s, u)
    ensures CursorsInv(Surviving(Interfere(s, u, stmt)), u)
  {
  }

  lemma InterfereInv(s: State, u: Uid, stmt: Stmt)
    requires Inv(s, u) && Allowed(u, stmt)
    ensures Inv(Surviving(Interfere(s, u, stmt)), u)
  {
    hide LateExact, Descends, Valid;
    assert ValidTable(s.db.chats) && ValidTable(s.db.posts) by { TablesValid(s.db); }
    ExecValid(s.db, stmt);
    ChatsDescend(s.db, u, stmt);
    PostsDescend(s.db, u, stmt);
    LateStep(s.db.chats, Exec(s.db, stmt).chats, ChatsPassed(s), s.lateChats, WrittenChat(s.db, u, stmt), ChatNames(u));
    LateStep(s.db.posts, Exec(s.db, stmt).posts, PostsPassed(s), s.latePosts, WrittenPost(s.db, u, stmt), PostNames(u));
    InterfereGroups(s, u, stmt);
    InterfereCursors(s, u, stmt);
  }

  // ----- the deletion's own statements -----

  /** Deleting rows of a table; the table is passed once no row names the user any more. */
  lemma LateFilter<B(!new)>(t: Table<B>, kept: Row<B> -> bool, passed: bool, passed': bool, late: set<nat>, names: Row<B> -> bool)
    requires ValidTable(t) && LateExact(t.rows, passed, late, names)
    requires passed' && !passed ==> forall r :: r in t.rows && kept(r) ==> !names(r)
    ensures LateExact(Filter(t.rows, kept), passed', late * IdSet(Filter(t.rows, kept)), names)
  {
    var rows := Filter(t.rows, kept);
    forall r | r in rows && passed' && names(r) ensures r.id in late * IdSet(rows) {
      IdInRows(rows, r);
    }
    forall id | id in late * IdSet(rows) ensures exists r :: r in rows && r.id == id && names(r) {
      var r := RowOfId(rows, id);
    }
  }

  /** A table that a statement leaves alone. */
  lemma LateSame<B(!new)>(rows: seq<Row<B>>, passed: bool, late: set<nat>, names: Row<B> -> bool)
    requires LateExact(rows, passed, late, names)
    ensures LateExact(rows, passed, late * IdSet(rows), names)
  {
    forall r | r in rows && passed && names(r) ensures r.id in late * IdSet(rows) {
      IdInRows(rows, r);
    }
  }

  lemma AdvanceChats(s: State, u: Uid, g: Gid)
    requires ValidTable(s.db.chats) && LateExact(s.db.chats.rows, ChatsPassed(s), s.lateChats, ChatNames(u))
    ensures var s' := Surviving(Advance(s, u, g));
            LateExact(s'.db.chats.rows, ChatsPassed(s'), s'.lateChats, ChatNames(u))
  {
    hide LateExact;
    LateSame(s.db.chats.rows, ChatsPassed(s), s.lateChats, ChatNames(u));
    if s.phase.DeletingChats? {
      LateFilter(s.db.chats, NotParty(u), false, true, s.lateChats, ChatNames(u));
    }
  }

  lemma AdvancePosts(s: State, u: Uid, g: Gid)
    requires ValidTable(s.db.posts) && LateExact(s.db.posts.rows, PostsPassed(s), s.latePosts, PostNames(u))
    ensures var s' := Surviving(Advance(s, u, g));
            LateExact(s'.db.posts.rows, PostsPassed(s'), s'.latePosts, PostNames(u))
  {
    hide LateExact;
    LateSame(s.db.posts.rows, PostsPassed(s), s.latePosts, PostNames(u));
    if s.phase.DeletingGroups? {
      LateFilter(s.db.posts, OutsideGroup(g), false, false, s.latePosts, PostNames(u));
      LateFilter(s.db.posts, NotFrom(u), false, true, s.latePosts, PostNames(u));
    }
  }

  lemma AdvanceGroups(s: State, u: Uid, g: Gid)
    requires GroupsInv(s, u)
    ensures GroupsInv(Surviving(Advance(s, u, g)), u)
  {
  }

  lemma AdvanceCursors(s: State, u: Uid, g: Gid)
    requires CursorsInv(s, u)
    ensures CursorsInv(Surviving(Advance(s, u, g)), u)
  {
  }

  lemma AdvanceValid(s: State, u: Uid, g: Gid)
    requires Valid(s.db)
    ensures Valid(Advance(s, u, g).db)
  {
    hide Valid;
    ExecValid(s.db, DeleteChatsOf(u));
    ExecValid(s.db, DeleteGroup(g));
    ExecValid(s.db, DeletePostsFrom(u));
    ExecValid(s.db, DeleteReadCursorsOf(u));
    ExecValid(s.db, DeleteUserRow(u));
  }

  lemma StepInv(s: State, u: Uid, e: Event)
    requires Inv(s, u)
    ensures Inv(Step(s, u, e), u)
  {
    match e
    case Next(g) =>
      hide LateExact, GroupsInv, CursorsInv;
      assert ValidTable(s.db.chats) && ValidTable(s.db.posts);
      hide Valid;
      AdvanceValid(s, u, g);
      AdvanceChats(s, u, g);
      AdvancePosts(s, u, g);
      AdvanceGroups(s, u, g);
      AdvanceCursors(s, u, g);
    case Other(stmt) =>
      hide Inv;
      if Allowed(u, stmt) { InterfereInv(s, u, stmt); }
  }

  lemma StartInv(t: Tables, u: Uid)
    requires Valid(t)
    ensures Inv(Start(t), u)
  {
  }

  lemma {:induction false} RunInv(t: Tables, u: Uid, events: seq<Event>)
    requires Valid(t)
    ensures Inv(Run(Start(t), u, events), u)
  {
    hide Inv, Step;
    if events == [] {
      StartInv(t, u);
    } else {
      RunInv(t, u, events[..|events| - 1]);
      StepInv(Run(Start(t), u, events[..|events| - 1]), u, events[|events| - 1]);
    }
  }

  // ----- main results -----

  /**
    Whatever runs in between: the last statement is accepted if and only if every post the user
    sent since statement 4, and every group the user created since the owned groups were looked
    up, has gone again.
   */
  lemma DeletionAcceptedIff(t: Tables, u: Uid, events: seq<Event>)
    requires Valid(t) && Run(Start(t), u, events).phase.DeletingUser?
    ensures var s := Run(Start(t), u, events);
            Accepts(s.db, DeleteUserRow(u)) <==> s.latePosts == {} && s.lateGroups == {}
  {
    hide Run, Valid;
    RunInv(t, u, events);
    var s := Run(Start(t), u, events);
    forall r | r in s.db.posts.rows && r.body.from == u ensures r.id in s.latePosts {
      assert PostNames(u)(r);
    }
    forall g | g in s.db.groups && s.db.groups[g].owner == u ensures g in s.lateGroups {
      assert Owned(s.db, u, g);
    }
    if id :| id in s.latePosts {
      assert exists r :: r in s.db.posts.rows && r.id == id && PostNames(u)(r);
    }
    if g :| g in s.lateGroups {
      assert Owned(s.db, u, g);
    }
  }

  /**
    After a successful deletion, at any later moment, the user is named by some row if and only
    if a private message was written after statement 1, or a read cursor after statement 5, and
    is still there; no other table can name the user.
   */
  lemma ErasedIff(t: Tables, u: Uid, events: seq<Event>)
    requires Valid(t) && Run(Start(t), u, events).phase.Succeeded?
    ensures var s := Run(Start(t), u, events);
            Names(s.db, u) <==> s.lateChats != {} || s.lateCursors != {}
  {
    hide Run;
    RunInv(t, u, events);
    var s := Run(Start(t), u, events);
    assert forall r :: r in s.db.chats.rows && ChatNames(u)(r) ==> r.id in s.lateChats;
    if id :| id in s.lateChats {
      assert exists r :: r in s.db.chats.rows && r.id == id && ChatNames(u)(r);
    }
    if k :| k in s.lateCursors {
      assert k in s.db.readCursors && (k.0 == u || k.1 == u);
    }
  }

  lemma {:induction false} NoLateCursors(t: Tables, u: Uid, events: seq<Event>)
    requires forall e :: e in events && e.Other? ==> !e.stmt.UpsertReadCursor?
    ensures Run(Start(t), u, events).lateCursors == {}
  {
    hide Exec;
    if events != [] {
      NoLateCursors(t, u, events[..|events| - 1]);
      assert events[|events| - 1] in events;
    }
  }

  /** Since no handler writes private read cursors, in this server only late private messages can name a deleted user. */
  lemma ErasedIffNoLateChat(t: Tables, u: Uid, events: seq<Event>)
    requires Valid(t) && Run(Start(t), u, events).phase.Succeeded?
    requires forall e :: e in events && e.Other? ==> !e.stmt.UpsertReadCursor?
    ensures var s := Run(Start(t), u, events);
            Names(s.db, u) <==> s.lateChats != {}
  {
    ErasedIff(t, u, events);
    NoLateCursors(t, u, events);
    hide Run;
  }

  // ----- without interference -----

  /** How far an undisturbed deletion has got. */
  ghost predicate OnTheWay(t: Tables, u: Uid, s: State) {
    var t1 := WithoutChats(t, u);
    var owned := OwnedGroups(t1, u);
    match s.phase
    case DeletingChats => s.db == t
    case FindingGroups => s.db == t1
    case DeletingGroups(left) => left <= owned && s.db == WithoutGroups(t1, owned - left)
    case DeletingReadCursors => s.db == WithoutPosts(WithoutGroups(t1, owned), u)
    case DeletingUser => s.db == BeforeUserRow(t, u)
    case Succeeded => s.db == Purge(t, u)
    case Refused => false
  }

  lemma OneStepFurther(t: Tables, u: Uid, s: State, g: Gid)
    requires OnTheWay(t, u, s)
    ensures OnTheWay(t, u, Step(s, u, Next(g)))
  {
    LastStatementAccepted(t, u);
    OrderedDeletionIsPurge(t, u);
    hide Purge, WithoutGroups, WithoutGroup, WithoutUser, WithoutPosts, WithoutChats, Accepts;
    var t1 := WithoutChats(t, u);
    var owned := OwnedGroups(t1, u);
    NoGroupsDeleted(t1);
    assert owned - owned == {} && owned - {} == owned;
    if s.phase.DeletingGroups? && g in s.phase.left {
      OneMoreGroup(t1, owned - s.phase.left, g);
      assert owned - (s.phase.left - {g}) == (owned - s.phase.left) + {g};
    }
  }

  /** Undisturbed, whatever the order of the groups, it is never refused and what it has done when it succeeds is the purge. */
  lemma {:induction false} UndisturbedDeletionIsPurge(t: Tables, u: Uid, events: seq<Event>)
    requires forall i :: 0 <= i < |events| ==> events[i].Next?
    ensures var s := Run(Start(t), u, events);
            OnTheWay(t, u, s) && !s.phase.Refused? && (s.phase.Succeeded? ==> s.db == Purge(t, u))
  {
    hide Step;
    if events != [] {
      var k := |events| - 1;
      UndisturbedDeletionIsPurge(t, u, events[..k]);
      OneStepFurther(t, u, Run(Start(t), u, events[..k]), events[k].g);
    }
  }

  // ----- each condition can fail -----

  /** User 1 is deleted; user 2 owns group 7. */
  const SAMPLE := EMPTY_TABLES.(users := map[1 := "ann", 2 := "bob"], groups := map[7 := Group(2, "team")])

  /** Before anything of user 1 is written, the deletion's statements find nothing to delete. */
  lemma NothingYet(s: State)
    requires s == Start(SAMPLE).(phase := s.phase)
    ensures s.phase.DeletingChats? ==> Step(s, 1, Next(0)) == s.(phase := FindingGroups)
    ensures s.phase.FindingGroups? ==> Step(s, 1, Next(0)) == s.(phase := DeletingGroups({}))
    ensures s.phase == DeletingGroups({}) ==> Step(s, 1, Next(0)) == s.(phase := DeletingReadCursors)
    ensures s.phase.DeletingReadCursors? ==> Step(s, 1, Next(0)) == s.(phase := DeletingUser)
  {
    assert OwnedGroups(SAMPLE, 1) == {};
    assert WithoutReadCursors(SAMPLE, 1) == SAMPLE;
  }

  /** Running the first n statements on the sample. */
  lemma {:induction false} SampleRun(n: nat) returns (events: seq<Event>)
    requires n <= 4
    ensures Run(Start(SAMPLE), 1, events) == Start(SAMPLE).(phase :=
              if n == 0 then DeletingChats else if n == 1 then FindingGroups else if n == 2 then DeletingGroups({})
              else if n == 3 then DeletingReadCursors else DeletingUser)
  {
    if n == 0 {
      events := [];
    } else {
      var before := SampleRun(n - 1);
      NothingYet(Run(Start(SAMPLE), 1, before));
      events := before + [Next(0)];
      assert events[..|before|] == before;
    }
  }

  lemma RunOneMore(s: State, events: seq<Event>, e: Event)
    ensures Run(s, 1, events + [e]) == Step(Run(s, 1, events), 1, e)
  {
    assert (events + [e])[..|events|] == events;
  }

  lemma OneId<B>(row: Row<B>)
    ensures IdSet([row]) == {row.id}
  {
    assert [row][0] == row;
  }

  lemma LatePostWritten()
    ensures var send := Other(InsertPost(Post(7, 1, "late", 1, 0), None));
            Step(Start(SAMPLE).(phase := DeletingUser), 1, send)
            == State(SAMPLE.(posts := Table([Row(1, None, Post(7, 1, "late", 1, 0))], 2)), DeletingUser, {}, {}, {1}, {})
  {
    var s := Step(Start(SAMPLE).(phase := DeletingUser), 1, Other(InsertPost(Post(7, 1, "late", 1, 0), None)));
    var row := Row(1, None, Post(7, 1, "late", 1, 0));
    OneId(row);
    assert s.db.posts.rows == [row];
    assert s.latePosts == {1};
  }

  /** The first condition can fail by a group message sent after statement 4. */
  lemma LatePostRefuses() returns (events: seq<Event>)
    ensures var s := Run(Start(SAMPLE), 1, events);
            s.phase.DeletingUser? && s.latePosts == {1} && s.lateGroups == {} && !Accepts(s.db, DeleteUserRow(1))
  {
    var before := SampleRun(4);
    var send := Other(InsertPost(Post(7, 1, "late", 1, 0), None));
    RunOneMore(Start(SAMPLE), before, send);
    events := before + [send];
    LatePostWritten();
    hide Run;
    var s := Run(Start(SAMPLE), 1, events);
    assert s.db.posts.rows[0] in s.db.posts.rows && s.db.posts.rows[0].body.from == 1;
  }

  /** Or by a group created after the owned groups were looked up. */
  lemma LateGroupRefuses() returns (events: seq<Event>)
    ensures var s := Run(Start(SAMPLE), 1, events);
            s.phase.DeletingUser? && s.latePosts == {} && s.lateGroups == {8} && !Accepts(s.db, DeleteUserRow(1))
  {
    var before := SampleRun(4);
    var create := Other(InsertGroup(8, Group(1, "late")));
    RunOneMore(Start(SAMPLE), before, create);
    events := before + [create];
    hide Run;
    assert Owned(Run(Start(SAMPLE), 1, events).db, 1, 8);
  }

  lemma LateChatWritten()
    ensures var send := Other(InsertChat(Chat(2, 1, "late", 1, false), None));
            Step(Start(SAMPLE).(phase := DeletingUser), 1, send)
            == State(SAMPLE.(chats := Table([Row(1, None, Chat(2, 1, "late", 1, false))], 2)), DeletingUser, {1}, {}, {}, {})
  {
    var s := Step(Start(SAMPLE).(phase := DeletingUser), 1, Other(InsertChat(Chat(2, 1, "late", 1, false), None)));
    var row := Row(1, None, Chat(2, 1, "late", 1, false));
    OneId(row);
    assert s.db.chats.rows == [row];
    assert s.lateChats == {1};
  }

  /** The second by a private message written after statement 1: no reference guards that table. */
  lemma LateChatSurvives() returns (events: seq<Event>)
    ensures var s := Run(Start(SAMPLE), 1, events);
            s.phase.Succeeded? && s.lateChats == {1} && s.lateCursors == {} && Names(s.db, 1)
  {
    var before := SampleRun(4);
    var send := Other(InsertChat(Chat(2, 1, "late", 1, false), None));
    RunOneMore(Start(SAMPLE), before, send);
    RunOneMore(Start(SAMPLE), before + [send], Next(0));
    events := before + [send] + [Next(0)];
    LateChatWritten();
    hide Run;
    var s := Run(Start(SAMPLE), 1, events);
    assert s.db.chats.rows[0] in s.db.chats.rows && s.db.chats.rows[0].id == 1;
  }

  /**
    Or by a read cursor written after statement 5. The statement exists in src/dao.rs, but no
    handler issues it; this is what it would do.
   */
  lemma LateReadCursorSurvives() returns (events: seq<Event>)
    ensures var s := Run(Start(SAMPLE), 1, events);
            s.phase.Succeeded? && s.lateChats == {} && s.lateCursors == {(2, 1)} && Names(s.db, 1)
  {
    var before := SampleRun(4);
    var upsert := Other(UpsertReadCursor(2, 1, 5));
    RunOneMore(Start(SAMPLE), before, upsert);
    RunOneMore(Start(SAMPLE), before + [upsert], Next(0));
    events := before + [upsert] + [Next(0)];
    hide Run;
    assert (2, 1) in Run(Start(SAMPLE), 1, events).db.readCursors;
  }
}
