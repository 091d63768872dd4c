/**
  Cursor pagination from the SQL query to the client array: the page query shared by
  get_chat_history and get_group_history, and the loaders of chat.html that unshift each
  item and use the first loaded id as the next cursor.
 */
module Pagination {
  import opened Base
  import opened Schema

  const PAGE_SIZE: nat := 40
  const MAX_INT64: nat := 9223372036854775807

  function Below<B>(bound: nat): Row<B> -> bool {
    (r: Row<B>) => r.id < bound
  }

  function Reverse<T>(s: seq<T>): seq<T> {
    seq(|s|, i requires 0 <= i < |s| => s[|s| - 1 - i])
  }

  function Newest<T>(s: seq<T>, limit: nat): seq<T> {
    if |s| <= limit then s else s[|s| - limit..]
  }

  /** WHERE id < COALESCE(before, i64::MAX) ORDER BY id DESC LIMIT limit; a negative LIMIT is an SQL error. */
  function Page<B(!new)>(view: seq<Row<B>>, before: Option<nat>, limit: int): Result<seq<Row<B>>> {
    if limit < 0 then Err
    else
      var bound := match before { case Some(b) => b case None => MAX_INT64 };
      Ok(Reverse(Newest(Filter(view, Below(bound)), limit)))
  }

  /** `query.limit.unwrap_or(50).min(100)`. */
  function HandlerLimit(limit: Option<int>): int {
    var n := if limit.Some? then limit.value else 50;
    if n < 100 then n else 100
  }

  /** The last n rows of an ascending table, newest first, and what they leave out. */
  lemma NewestMeaning<B(!new)>(below: seq<Row<B>>, n: nat)
    requires Ascending(below)
    ensures var items := Reverse(Newest(below, n));
            && |items| <= n
            && (forall i, j :: 0 <= i < j < |items| ==> items[j].id < items[i].id)
            && (forall x :: x in items ==> x in below)
            && (forall x, i :: x in below && x !in items && 0 <= i < |items| ==> x.id < items[i].id)
            && (forall x :: x in below && x !in items ==> |items| == n)
  {
    var items := Reverse(Newest(below, n));
    assert forall i :: 0 <= i < |items| ==> items[i] == below[|below| - 1 - i];
    forall k | |below| - |items| <= k < |below| ensures below[k] in items {
      assert items[|below| - 1 - k] == below[k];
    }
    forall x | x in below && x !in items
      ensures |items| == n && forall i :: 0 <= i < |items| ==> x.id < items[i].id
    {
      var k :| 0 <= k < |below| && below[k] == x;
    }
  }

  /**
    What a page is: refused only for a negative limit; otherwise newest first, strictly below
    the cursor, at most 100 rows (50 unless asked), and anything below the cursor that it leaves
    out is older than everything on a full page.
   */
  lemma PageMeaning<B(!new)>(view: seq<Row<B>>, before: Option<nat>, limit: Option<int>)
    requires Ascending(view)
    ensures var page := Page(view, before, HandlerLimit(limit));
            var bound := if before.Some? then before.value else 9223372036854775807;
            var size := if limit.None? then 50 else if limit.value < 100 then limit.value else 100;
            && (page.Err? <==> limit.Some? && limit.value < 0)
            && (page.Ok? ==>
                  var items := page.value;
                  && |items| <= size
                  && (forall i, j :: 0 <= i < j < |items| ==> items[j].id < items[i].id)
                  && (forall x :: x in items ==> x in view && x.id < bound)
                  && (forall x, i :: x in view && x.id < bound && x !in items && 0 <= i < |items| ==> x.id < items[i].id)
                  && (forall x :: x in view && x.id < bound && x !in items ==> |items| == size))
  {
    var n := HandlerLimit(limit);
    if n >= 0 {
      var bound := if before.Some? then before.value else MAX_INT64;
      FilterAscending(view, Below(bound));
      NewestMeaning(Filter(view, Below(bound)), n);
      hide Reverse, Newest;
    }
  }

  datatype Label = LoadFailed | NoEarlier | AllLoaded | LoadEarlier

  /** The cursor of the next request; a zero id would be sent as no cursor at all. */
  function NextCursor<B>(messages: seq<Row<B>>): Option<nat> {
    if messages == [] || messages[0].id == 0 then None else Some(messages[0].id)
  }

  /** The array after one load against the given view of the conversation. */
  function Loaded<B(!new)>(messages: seq<Row<B>>, view: seq<Row<B>>): seq<Row<B>> {
    match Page(view, NextCursor(messages), HandlerLimit(Some(PAGE_SIZE)))
    case Ok(items) => Reverse(items) + messages
    case Err => messages
  }

  function LabelAfter<B(!new)>(messages: seq<Row<B>>, view: seq<Row<B>>): Label {
    match Page(view, NextCursor(messages), HandlerLimit(Some(PAGE_SIZE)))
    case Ok(items) => if items == [] then NoEarlier else if |items| < PAGE_SIZE then AllLoaded else LoadEarlier
    case Err => LoadFailed
  }

  /**
    A served page never shows the failure label: it says that nothing earlier exists when the
    array does not grow, that all is loaded when it grows by less than a page, and offers more
    when it grows by a whole one.
   */
  lemma LabelMeaning<B(!new)>(messages: seq<Row<B>>, view: seq<Row<B>>)
    ensures var grown := |Loaded(messages, view)| - |messages|;
            && 0 <= grown <= PAGE_SIZE
            && LabelAfter(messages, view)
               == if grown == 0 then NoEarlier else if grown < PAGE_SIZE then AllLoaded else LoadEarlier
  {
  }

  /** The client half: loadHistory and loadGroupHistory differ only in the URL they request. */
  class HistoryLoader<B(!new)> {
    var messages: seq<Row<B>>

    /** openChat and openGroupChat start from an empty array. */
    constructor ()
      ensures messages == []
    {
      messages := [];
    }

    /** One completed request; `served` is false when the reply was an error. */
    method LoadHistory(view: seq<Row<B>>, served: bool) returns (shown: Label)
      modifies this
      ensures messages == if served then Loaded(old(messages), view) else old(messages)
      ensures shown == if served then LabelAfter(old(messages), view) else LoadFailed
      ensures shown == LoadFailed <==> !served
      ensures shown == AllLoaded <==> served && 0 < |messages| - |old(messages)| < PAGE_SIZE
      ensures shown == LoadEarlier <==> served && |messages| - |old(messages)| >= PAGE_SIZE
    {
      LabelMeaning(messages, view);
      var reply := if served then Page(view, NextCursor(messages), HandlerLimit(Some(PAGE_SIZE))) else Err;
      if reply.Err? {
        return LoadFailed;
      }
      var items := reply.value;
      if |items| == 0 {
        assert Reverse(items) + messages == messages;
        return NoEarlier;
      }
      shown := if |items| < PAGE_SIZE then AllLoaded else LoadEarlier;
      for i := 0 to |items|
        invariant messages == Reverse(items[..i]) + old(messages)
      {
        assert Reverse(items[..i + 1]) == [items[i]] + Reverse(items[..i]);
        messages := [items[i]] + messages;
      }
      assert items[..|items|] == items;
    }
  }

  // ----- one load -----

  lemma BelowIsPrefix<B(!new)>(view: seq<Row<B>>, lo: nat)
    requires Ascending(view) && lo < |view|
    ensures Filter(view, Below(view[lo].id)) == view[..lo]
  {
    FilterAscending(view, Below(view[lo].id));
    forall x ensures x in Filter(view, Below(view[lo].id)) <==> x in view[..lo] {
      if x in view && x.id < view[lo].id {
        var k :| 0 <= k < |view| && view[k] == x;
        assert k < lo;
      }
    }
    AscendingUnique(Filter(view, Below(view[lo].id)), view[..lo]);
  }

  lemma AllBelow<B(!new)>(view: seq<Row<B>>, bound: nat)
    requires Ascending(view) && forall i :: 0 <= i < |view| ==> view[i].id < bound
    ensures Filter(view, Below(bound)) == view
  {
    FilterAscending(view, Below(bound));
    AscendingUnique(Filter(view, Below(bound)), view);
  }

  ghost predicate GoodView<B(!new)>(view: seq<Row<B>>) {
    Ascending(view) && forall i :: 0 <= i < |view| ==> 0 < view[i].id < MAX_INT64
  }

  /** The position the array reaches back to after k loads of a conversation of n messages. */
  function Start(n: nat, k: nat): nat {
    if n < PAGE_SIZE * k then 0 else n - PAGE_SIZE * k
  }

  lemma ReverseTwice<T>(s: seq<T>)
    ensures Reverse(Reverse(s)) == s && |Reverse(s)| == |s|
  {
  }

  lemma FirstLoad<B(!new)>(view: seq<Row<B>>)
    requires GoodView(view)
    ensures Loaded([], view) == view[Start(|view|, 1)..]
    ensures LabelAfter([], view) == if view == [] then NoEarlier else if |view| < PAGE_SIZE then AllLoaded else LoadEarlier
  {
    AllBelow(view, MAX_INT64);
    ReverseTwice(Newest(view, PAGE_SIZE));
    assert Newest(view, PAGE_SIZE) == view[Start(|view|, 1)..];
    hide Filter, Reverse, Ascending;
  }

  /** A load below position lo prepends the page just before it, whatever lies above. */
  lemma OlderPage<B(!new)>(messages: seq<Row<B>>, view: seq<Row<B>>, lo: nat)
    requires GoodView(view) && lo < |view|
    requires messages != [] && messages[0].id == view[lo].id
    ensures Loaded(messages, view) == view[Start(lo, 1)..lo] + messages
    ensures LabelAfter(messages, view) == if lo == 0 then NoEarlier else if lo < PAGE_SIZE then AllLoaded else LoadEarlier
  {
    BelowIsPrefix(view, lo);
    var newest := Newest(view[..lo], PAGE_SIZE);
    ReverseTwice(newest);
    assert newest == view[Start(lo, 1)..lo];
    hide Filter, Reverse, Ascending;
  }

  /** A later load prepends exactly the page just before the array, although newer messages have arrived. */
  lemma NextLoad<B(!new)>(messages: seq<Row<B>>, view: seq<Row<B>>, n: nat, k: nat)
    requires GoodView(view) && 0 < n <= |view| && 0 < k
    requires Ids(messages) == Ids(view)[Start(n, k)..n]
    ensures Ids(Loaded(messages, view)) == Ids(view)[Start(n, k + 1)..n]
    ensures LabelAfter(messages, view)
            == if n <= PAGE_SIZE * k then NoEarlier else if n < PAGE_SIZE * (k + 1) then AllLoaded else LoadEarlier
    ensures Loaded(messages, view) == view[Start(n, k + 1)..Start(n, k)] + messages
  {
    hide Loaded, LabelAfter;
    var lo, lo' := Start(n, k), Start(n, k + 1);
    assert |Ids(messages)| == n - lo;
    if lo < n {
      assert Ids(messages)[0] == messages[0].id;
      OlderPage(messages, view, lo);
      assert Start(lo, 1) == lo';
      assert Ids(view[lo'..lo] + messages) == Ids(view[lo'..lo]) + Ids(messages);
      assert Ids(view[lo'..lo]) == Ids(view)[lo'..lo];
    }
  }

  // ----- a whole session -----

  /** The array after one load per view, starting from an empty array. */
  function Session<B(!new)>(views: seq<seq<Row<B>>>): seq<Row<B>> {
    if views == [] then [] else Loaded(Session(views[..|views| - 1]), views[|views| - 1])
  }

  /** The conversation as of the first load stays a prefix of every later view. */
  ghost predicate Grows<B(!new)>(views: seq<seq<Row<B>>>) {
    && (forall j :: 0 <= j < |views| ==> GoodView(views[j]))
    && (forall j :: 0 <= j < |views| ==> Ids(views[0]) <= Ids(views[j]))
  }

  /**
    After any number of loads the array is the ascending newest part of the conversation as
    of the first load, without gap or duplicate, whatever arrived in between; every entry is
    a row that was served; and the label says whether, and how, the snapshot is exhausted.
   */
  lemma {:induction false} SessionIsSuffix<B(!new)>(views: seq<seq<Row<B>>>)
    requires Grows(views) && views != [] && views[0] != []
    ensures Ids(Session(views)) == Ids(views[0])[Start(|views[0]|, |views|)..]
    ensures forall m :: m in Session(views) ==> exists j :: 0 <= j < |views| && m in views[j]
    ensures var n, k := |views[0]|, |views|;
            LabelAfter(Session(views[..k - 1]), views[k - 1])
            == if n <= 40 * (k - 1) then NoEarlier else if n < 40 * k then AllLoaded else LoadEarlier
  {
    hide Loaded, LabelAfter;
    var k := |views| - 1;
    var before, view := views[..k], views[k];
    var n := |views[0]|;
    if k == 0 {
      FirstLoad(view);
      var lo := Start(n, 1);
      assert Ids(view[lo..]) == Ids(view)[lo..];
    } else {
      assert before[0] == views[0];
      SessionIsSuffix(before);
      assert Ids(views[0]) <= Ids(view);
      assert Ids(view)[..n] == Ids(views[0]);
      assert Ids(views[0])[Start(n, k)..] == Ids(view)[Start(n, k)..n];
      NextLoad(Session(before), view, n, k);
      assert Ids(view)[Start(n, k + 1)..n] == Ids(views[0])[Start(n, k + 1)..];
      forall m | m in Session(views) ensures exists j :: 0 <= j < |views| && m in views[j] {
        if m in Session(before) {
          var j :| 0 <= j < |before| && m in before[j];
          assert m in views[j];
        } else {
          assert m in view;
        }
      }
    }
  }

  lemma EmptyLoad<B(!new)>()
    ensures Loaded<B>([], []) == [] && LabelAfter<B>([], []) == NoEarlier
  {
  }

  /** While the conversation is still empty a load changes nothing: the next one is a first load. */
  lemma {:induction false} EmptyLoadsDoNothing<B(!new)>(views: seq<seq<Row<B>>>)
    requires views != [] && views[0] == []
    ensures Session(views) == Session(views[1..])
    ensures LabelAfter([], views[0]) == NoEarlier
  {
    hide Loaded, LabelAfter;
    EmptyLoad<B>();
    var k := |views| - 1;
    if k == 0 {
      assert views[..0] == [] && views[1..] == [];
    } else {
      EmptyLoadsDoNothing(views[..k]);
      assert views[1..][..k - 1] == views[..k][1..];
    }
  }

  /** Within floor(n / 40) + 1 loads the whole snapshot is shown and the client knows it. */
  lemma SessionCompletes<B(!new)>(views: seq<seq<Row<B>>>)
    requires Grows(views) && views != [] && views[0] != []
    requires |views| == |views[0]| / 40 + 1
    ensures Ids(Session(views)) == Ids(views[0])
    ensures LabelAfter(Session(views[..|views| - 1]), views[|views| - 1])
            == if |views[0]| % 40 == 0 then NoEarlier else AllLoaded
  {
    hide LabelAfter, Session;
    SessionIsSuffix(views);
    assert Ids(views[0])[0..] == Ids(views[0]);
  }

  // ----- the views of the two tables -----

  function Between(a: Uid, b: Uid): Row<Chat> -> bool {
    (r: Row<Chat>) => (r.body.from == a && r.body.to == b) || (r.body.from == b && r.body.to == a)
  }

  function ChatView(t: Tables, a: Uid, b: Uid): seq<Row<Chat>> {
    Filter(t.chats.rows, Between(a, b))
  }

  /** The conversation of a pair: exactly the messages whose two parties are those users, in id order, whoever asks. */
  lemma ChatViewExact(t: Tables, a: Uid, b: Uid)
    requires ValidTable(t.chats)
    ensures Ascending(ChatView(t, a, b))
    ensures forall r :: r in ChatView(t, a, b) <==> r in t.chats.rows && {r.body.from, r.body.to} == {a, b}
    ensures ChatView(t, b, a) == ChatView(t, a, b)
  {
    FilterAscending(t.chats.rows, Between(a, b));
    FilterSame(t.chats.rows, Between(a, b), Between(b, a));
    forall r | r in t.chats.rows ensures Between(a, b)(r) <==> {r.body.from, r.body.to} == {a, b} {
      assert r.body.from in {r.body.from, r.body.to} && r.body.to in {r.body.from, r.body.to};
      assert a in {a, b} && b in {a, b};
    }
  }

  /** The join with im_users drops nothing: senders are references. */
  function GroupView(t: Tables, g: Gid): seq<Row<Post>> {
    Filter(t.posts.rows, (r: Row<Post>) => r.body.gid == g && r.body.from in t.users)
  }

  lemma GroupJoinDropsNothing(t: Tables, g: Gid)
    requires Valid(t)
    ensures GroupView(t, g) == Filter(t.posts.rows, InGroup(g))
  {
    var joined := (r: Row<Post>) => r.body.gid == g && r.body.from in t.users;
    FilterAscending(t.posts.rows, joined);
    FilterAscending(t.posts.rows, InGroup(g));
    AscendingUnique(GroupView(t, g), Filter(t.posts.rows, InGroup(g)));
  }

  lemma {:induction false} UpdateKeepsIds<B(!new)>(rows: seq<Row<B>>, out: seq<Row<B>>, p: Row<B> -> bool)
    requires |rows| == |out|
    requires forall i :: 0 <= i < |rows| ==> out[i].id == rows[i].id && p(out[i]) == p(rows[i])
    ensures Ids(Filter(out, p)) == Ids(Filter(rows, p))
  {
    if rows != [] {
      var k := |rows| - 1;
      UpdateKeepsIds(rows[..k], out[..k], p);
      assert Ids(Filter(rows[..k], p) + [rows[k]]) == Ids(Filter(rows[..k], p)) + [rows[k].id];
      assert Ids(Filter(out[..k], p) + [out[k]]) == Ids(Filter(out[..k], p)) + [out[k].id];
    }
  }

  lemma PersistExtends<B(!new)>(t: Table<B>, cid: Option<string>, body: B, p: Row<B> -> bool)
    ensures Ids(Filter(t.rows, p)) <= Ids(Filter(Persist(t, cid, body).0.rows, p))
  {
  }

  predicate KeepsChats(stmt: Stmt) {
    !stmt.DeleteChatsOf?
  }

  predicate KeepsPosts(stmt: Stmt) {
    !stmt.DeleteGroup? && !stmt.DeletePostsFrom?
  }

  lemma ChatViewExtends(t: Tables, stmt: Stmt, a: Uid, b: Uid)
    requires KeepsChats(stmt)
    ensures Ids(ChatView(t, a, b)) <= Ids(ChatView(Exec(t, stmt), a, b))
  {
    if stmt.InsertChat? {
      PersistExtends(t.chats, stmt.cid, stmt.chat.(seen := false), Between(a, b));
    } else if stmt.MarkSeen? {
      UpdateKeepsIds(t.chats.rows, SeeRows(t.chats.rows, stmt.from, stmt.to), Between(a, b));
    }
  }

  lemma PostsExtend(t: Tables, stmt: Stmt, g: Gid)
    requires KeepsPosts(stmt)
    ensures Ids(Filter(t.posts.rows, InGroup(g))) <= Ids(Filter(Exec(t, stmt).posts.rows, InGroup(g)))
  {
    if stmt.InsertPost? {
      PersistExtends(t.posts, stmt.cid, stmt.post.(readCount := 0), InGroup(g));
    } else if stmt.IncrementReads? {
      UpdateKeepsIds(t.posts.rows, CountReads(t.posts.rows, stmt.gid, stmt.lo, stmt.hi, stmt.viewer), InGroup(g));
    }
  }

  function After(t: Tables, stmts: seq<Stmt>): Tables {
    if stmts == [] then t else Exec(After(t, stmts[..|stmts| - 1]), stmts[|stmts| - 1])
  }

  lemma {:induction false} AfterExtends(t: Tables, stmts: seq<Stmt>, a: Uid, b: Uid, g: Gid)
    requires Valid(t)
    ensures Valid(After(t, stmts))
    ensures (forall k :: 0 <= k < |stmts| ==> KeepsChats(stmts[k])) ==>
              Ids(ChatView(t, a, b)) <= Ids(ChatView(After(t, stmts), a, b))
    ensures (forall k :: 0 <= k < |stmts| ==> KeepsPosts(stmts[k])) ==>
              Ids(GroupView(t, g)) <= Ids(GroupView(After(t, stmts), g))
  {
    hide Exec, Valid, ChatView, GroupView, Filter;
    if stmts != [] {
      var before, last := After(t, stmts[..|stmts| - 1]), stmts[|stmts| - 1];
      AfterExtends(t, stmts[..|stmts| - 1], a, b, g);
      ExecValid(before, last);
      GroupJoinDropsNothing(before, g);
      GroupJoinDropsNothing(Exec(before, last), g);
      if KeepsChats(last) { ChatViewExtends(before, last, a, b); }
      if KeepsPosts(last) { PostsExtend(before, last, g); }
    }
  }

  /**
    The views two users' successive loads are served from: before each load some statements
    ran, the load's own seen-marking being the last of them.
   */
  function ChatViews(t: Tables, gaps: seq<seq<Stmt>>, a: Uid, b: Uid): seq<seq<Row<Chat>>>
    decreases |gaps|
  {
    if gaps == [] then []
    else
      var t' := Exec(After(t, gaps[0]), MarkSeen(b, a));
      [ChatView(t', a, b)] + ChatViews(t', gaps[1..], a, b)
  }

  function GroupViews(t: Tables, gaps: seq<seq<Stmt>>, g: Gid): seq<seq<Row<Post>>>
    decreases |gaps|
  {
    if gaps == [] then []
    else
      var t' := After(t, gaps[0]);
      [GroupView(t', g)] + GroupViews(t', gaps[1..], g)
  }

  ghost predicate NoDeletion(gaps: seq<seq<Stmt>>) {
    forall j, k :: 0 <= j < |gaps| && 0 <= k < |gaps[j]| ==> KeepsChats(gaps[j][k]) && KeepsPosts(gaps[j][k])
  }

  lemma SeenMarkKeeps(b: Uid, a: Uid)
    ensures KeepsChats(MarkSeen(b, a))
  {
  }

  ghost predicate Keyed<B(!new)>(view: seq<Row<B>>) {
    Ascending(view) && forall i :: 0 <= i < |view| ==> 0 < view[i].id
  }

  lemma FilterKeyed<B(!new)>(t: Table<B>, p: Row<B> -> bool)
    requires ValidTable(t)
    ensures Keyed(Filter(t.rows, p))
  {
    FilterValidTable(t, p);
  }

  lemma ViewKeyed(t: Tables, a: Uid, b: Uid, g: Gid)
    requires Valid(t)
    ensures Keyed(ChatView(t, a, b)) && Keyed(GroupView(t, g))
  {
    FilterKeyed(t.chats, Between(a, b));
    FilterKeyed(t.posts, (r: Row<Post>) => r.body.gid == g && r.body.from in t.users);
  }

  lemma {:induction false} ChatViewsGrow(t: Tables, gaps: seq<seq<Stmt>>, a: Uid, b: Uid)
    requires Valid(t) && NoDeletion(gaps)
    ensures forall j :: 0 <= j < |ChatViews(t, gaps, a, b)| ==>
              Ids(ChatView(t, a, b)) <= Ids(ChatViews(t, gaps, a, b)[j]) && Keyed(ChatViews(t, gaps, a, b)[j])
    decreases |gaps|
  {
    hide Valid, Exec, Keyed, KeepsChats, KeepsPosts;
    if gaps != [] {
      var between := After(t, gaps[0]);
      var t' := Exec(between, MarkSeen(b, a));
      forall k | 0 <= k < |gaps[0]| ensures KeepsChats(gaps[0][k]) { }
      AfterExtends(t, gaps[0], a, b, 0);
      ExecValid(between, MarkSeen(b, a));
      assert KeepsChats(MarkSeen(b, a)) by { SeenMarkKeeps(b, a); }
      ChatViewExtends(between, MarkSeen(b, a), a, b);
      ViewKeyed(t', a, b, 0);
      assert NoDeletion(gaps[1..]);
      ChatViewsGrow(t', gaps[1..], a, b);
    }
  }

  lemma {:induction false} GroupViewsGrow(t: Tables, gaps: seq<seq<Stmt>>, g: Gid)
    requires Valid(t) && NoDeletion(gaps)
    ensures forall j :: 0 <= j < |GroupViews(t, gaps, g)| ==>
              Ids(GroupView(t, g)) <= Ids(GroupViews(t, gaps, g)[j]) && Keyed(GroupViews(t, gaps, g)[j])
    decreases |gaps|
  {
    hide Valid, Exec, Keyed, KeepsChats, KeepsPosts;
    if gaps != [] {
      var t' := After(t, gaps[0]);
      forall k | 0 <= k < |gaps[0]| ensures KeepsPosts(gaps[0][k]) { }
      AfterExtends(t, gaps[0], 0, 0, g);
      ViewKeyed(t', 0, 0, g);
      assert NoDeletion(gaps[1..]);
      GroupViewsGrow(t', gaps[1..], g);
    }
  }

  // ----- end to end -----

  ghost predicate BelowMax<B(!new)>(views: seq<seq<Row<B>>>) {
    forall j, i :: 0 <= j < |views| && 0 <= i < |views[j]| ==> views[j][i].id < MAX_INT64
  }

  lemma ViewsGrow<B(!new)>(first: seq<Row<B>>, rest: seq<seq<Row<B>>>)
    requires Keyed(first) && BelowMax([first] + rest)
    requires forall j :: 0 <= j < |rest| ==> Ids(first) <= Ids(rest[j]) && Keyed(rest[j])
    ensures Grows([first] + rest)
  {
  }

  lemma {:induction false} ChatViewsLength(t: Tables, gaps: seq<seq<Stmt>>, a: Uid, b: Uid)
    ensures |ChatViews(t, gaps, a, b)| == |gaps|
    decreases |gaps|
  {
    if gaps != [] {
      ChatViewsLength(Exec(After(t, gaps[0]), MarkSeen(b, a)), gaps[1..], a, b);
    }
  }

  /**
    Private history, server and client together: with any sends and seen-marks between the
    loads and no deletion, the array holds the newest part of the conversation as of the first
    load, and the loader stops exactly when it holds all of it.
   */
  lemma ChatHistoryLoads(t: Tables, gaps: seq<seq<Stmt>>, a: Uid, b: Uid)
    requires Valid(t) && NoDeletion(gaps) && gaps != []
    requires var views := ChatViews(t, gaps, a, b); BelowMax(views) && views[0] != []
    ensures var views := ChatViews(t, gaps, a, b);
            && |views| == |gaps|
            && Ids(Session(views)) == Ids(views[0])[Start(|views[0]|, |gaps|)..]
            && var n, k := |views[0]|, |gaps|;
            LabelAfter(Session(views[..k - 1]), views[k - 1])
            == if n <= 40 * (k - 1) then NoEarlier else if n < 40 * k then AllLoaded else LoadEarlier
  {
    hide Valid, Exec, Session, LabelAfter, Grows, BelowMax, Keyed, ChatView;
    var between := After(t, gaps[0]);
    var t' := Exec(between, MarkSeen(b, a));
    var rest := ChatViews(t', gaps[1..], a, b);
    AfterExtends(t, gaps[0], a, b, 0);
    ExecValid(between, MarkSeen(b, a));
    ViewKeyed(t', a, b, 0);
    ChatViewsGrow(t', gaps[1..], a, b);
    ChatViewsLength(t', gaps[1..], a, b);
    ViewsGrow(ChatView(t', a, b), rest);
    SessionIsSuffix(ChatViews(t, gaps, a, b));
  }

  lemma {:induction false} GroupViewsLength(t: Tables, gaps: seq<seq<Stmt>>, g: Gid)
    ensures |GroupViews(t, gaps, g)| == |gaps|
    decreases |gaps|
  {
    if gaps != [] {
      GroupViewsLength(After(t, gaps[0]), gaps[1..], g);
    }
  }

  /** The same for groups, where read receipts run between the loads as well. */
  lemma GroupHistoryLoads(t: Tables, gaps: seq<seq<Stmt>>, g: Gid)
    requires Valid(t) && NoDeletion(gaps) && gaps != []
    requires var views := GroupViews(t, gaps, g); BelowMax(views) && views[0] != []
    ensures var views := GroupViews(t, gaps, g);
            && |views| == |gaps|
            && Ids(Session(views)) == Ids(views[0])[Start(|views[0]|, |gaps|)..]
            && var n, k := |views[0]|, |gaps|;
            LabelAfter(Session(views[..k - 1]), views[k - 1])
            == if n <= 40 * (k - 1) then NoEarlier else if n < 40 * k then AllLoaded else LoadEarlier
  {
    hide Valid, Exec, Session, LabelAfter, Grows, BelowMax, Keyed, GroupView;
    var t' := After(t, gaps[0]);
    var rest := GroupViews(t', gaps[1..], g);
    AfterExtends(t, gaps[0], 0, 0, g);
    ViewKeyed(t', 0, 0, g);
    GroupViewsGrow(t', gaps[1..], g);
    GroupViewsLength(t', gaps[1..], g);
    ViewsGrow(GroupView(t', g), rest);
    SessionIsSuffix(GroupViews(t, gaps, g));
  }
}
