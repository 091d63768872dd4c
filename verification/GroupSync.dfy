/**
  Unread group messages: the reconnect query, the badge query, and reading a group.
 */
module GroupSync {
  import opened Base
  import opened Schema
  import opened Receipts

  function PastCursor(t: Tables, u: Uid): Row<Post> -> bool {
    (r: Row<Post>) => Cursor(t, u, r.body.gid) < r.id
  }

  function OlderUnread(t: Tables, u: Uid, id: nat): Row<Post> -> bool {
    (r: Row<Post>) => Cursor(t, u, r.body.gid) < r.id && r.id < id
  }

  /** Every message past the user's cursor, of any group. */
  function UnseenPosts(t: Tables, u: Uid): seq<Row<Post>> {
    Filter(t.posts.rows, PastCursor(t, u))
  }

  /** get_unseen_group_messages: one page over all groups together, membership not asked for. */
  function GetUnseenPosts(t: Tables, u: Uid, limit: nat): seq<Row<Post>> {
    Take(UnseenPosts(t, u), limit)
  }

  function UnseenIn(t: Tables, u: Uid, g: Gid): seq<Row<Post>> {
    Filter(UnseenPosts(t, u), InGroup(g))
  }

  /**
    get_unseen_group_counts: joined with membership, groups without unread messages absent. It is
    meant for unread badges, but no handler calls it yet.
   */
  function UnseenCounts(t: Tables, u: Uid): map<Gid, nat> {
    map g | g in t.groups && (g, u) in t.members && UnseenIn(t, u, g) != [] :: |UnseenIn(t, u, g)|
  }

  function Badge(t: Tables, u: Uid, g: Gid): nat {
    Get(UnseenCounts(t, u), g, 0)
  }

  /** The messages of one group that a reconnect pushes. */
  function SyncedIn(t: Tables, u: Uid, g: Gid, limit: nat): seq<Row<Post>> {
    Filter(GetUnseenPosts(t, u, limit), InGroup(g))
  }

  // ----- what the page holds -----

  /** A group message is on the page if and only if it is unread and fewer than `limit` older ones of any group are. */
  lemma GroupPageExact(t: Tables, u: Uid, limit: nat, r: Row<Post>)
    requires ValidTable(t.posts) && r in t.posts.rows
    ensures r in GetUnseenPosts(t, u, limit)
            <==> Cursor(t, u, r.body.gid) < r.id && |Filter(t.posts.rows, OlderUnread(t, u, r.id))| < limit
    ensures forall q :: q in Filter(t.posts.rows, OlderUnread(t, u, r.id)) <==>
              q in t.posts.rows && Cursor(t, u, q.body.gid) < q.id < r.id
  {
    PageExact(t.posts.rows, PastCursor(t, u), OlderUnread(t, u, r.id), limit, r);
  }

  /** ORDER BY id: the page is ascending, so no message is on it twice. */
  lemma GroupPageAscends(t: Tables, u: Uid, limit: nat)
    requires ValidTable(t.posts)
    ensures Ascending(GetUnseenPosts(t, u, limit)) && |GetUnseenPosts(t, u, limit)| <= limit
  {
    FilterAscending(t.posts.rows, PastCursor(t, u));
  }

  lemma BadgeExact(t: Tables, u: Uid, g: Gid)
    requires Valid(t)
    ensures Badge(t, u, g) == if (g, u) in t.members then |UnseenIn(t, u, g)| else 0
  {
    hide UnseenIn;
    assert (g, u) in t.members ==> (g, u).0 in t.groups;
  }

  /** What is unread in a group: its messages past the cursor; and what the badge says of it. */
  lemma UnseenInExact(t: Tables, u: Uid, g: Gid)
    requires Valid(t)
    ensures Ascending(UnseenIn(t, u, g))
    ensures forall r :: r in UnseenIn(t, u, g) <==> r in t.posts.rows && r.body.gid == g && Cursor(t, u, g) < r.id
    ensures Badge(t, u, g) == if (g, u) in t.members then |UnseenIn(t, u, g)| else 0
  {
    BadgeExact(t, u, g);
    FilterAscending(t.posts.rows, PastCursor(t, u));
    hide Badge, Valid;
    FilterAscending(UnseenPosts(t, u), InGroup(g));
    hide Ascending;
  }

  function OwnOlder(t: Tables, u: Uid, id: nat): Row<Post> -> bool {
    (r: Row<Post>) => OlderUnread(t, u, id)(r) && (r.body.gid, u) in t.members
  }

  function ForeignOlder(t: Tables, u: Uid, id: nat): Row<Post> -> bool {
    (r: Row<Post>) => OlderUnread(t, u, id)(r) && (r.body.gid, u) !in t.members
  }

  lemma {:induction false} SplitCount<T(!new)>(s: seq<T>, p: T -> bool, q: T -> bool, either: T -> bool)
    requires forall x :: (either(x) <==> p(x) || q(x)) && !(p(x) && q(x))
    ensures |Filter(s, either)| == |Filter(s, p)| + |Filter(s, q)|
  {
    if s != [] {
      SplitCount(s[..|s| - 1], p, q, either);
    }
  }

  /**
    Because the query does not ask for membership, unread messages of groups the user is not in
    take up room on the page.
   */
  lemma ForeignGroupsTakeRoom(t: Tables, u: Uid, limit: nat, r: Row<Post>)
    requires ValidTable(t.posts) && r in t.posts.rows && PastCursor(t, u)(r)
    ensures r in GetUnseenPosts(t, u, limit)
            <==> |Filter(t.posts.rows, OwnOlder(t, u, r.id))| + |Filter(t.posts.rows, ForeignOlder(t, u, r.id))| < limit
  {
    GroupPageExact(t, u, limit, r);
    SplitCount(t.posts.rows, OwnOlder(t, u, r.id), ForeignOlder(t, u, r.id), OlderUnread(t, u, r.id));
  }

  // ----- badge and page -----

  lemma Regroup<T>(a: seq<T>, b: seq<T>, last: seq<T>)
    ensures (a + b) + last == a + (b + last)
  {
  }

  lemma {:induction false} FilterSplit<T(!new)>(s: seq<T>, p: T -> bool, m: nat)
    requires m <= |s|
    ensures Filter(s, p) == Filter(s[..m], p) + Filter(s[m..], p)
  {
    if m < |s| {
      var k := |s| - 1;
      FilterSplit(s[..k], p, m);
      FilterAppend(s[..k], s[k], p);
      FilterAppend(s[m..k], s[k], p);
      assert s[..k] + [s[k]] == s && s[m..k] + [s[k]] == s[m..] && s[..k][..m] == s[..m] && s[..k][m..] == s[m..k];
      Regroup(Filter(s[..m], p), Filter(s[m..k], p), if p(s[k]) then [s[k]] else []);
      hide Filter;
    } else {
      assert s[..m] == s && s[m..] == [];
    }
  }

  lemma LaterIsNotOnPage(all: seq<Row<Post>>, m: nat, x: Row<Post>)
    requires Ascending(all) && m <= |all| && x in all[m..]
    ensures x !in all[..m]
  {
    var j :| 0 <= j < |all[m..]| && all[m..][j] == x;
    assert all[m + j] == x;
  }

  /** A page holds all of a group exactly when it holds the group's last message, and none exactly without its first. */
  lemma AllOrNone(all: seq<Row<Post>>, p: Row<Post> -> bool, m: nat)
    requires Ascending(all) && m <= |all| && Filter(all, p) != []
    ensures var hits := Filter(all, p);
            && (|Filter(all[..m], p)| == |hits| <==> hits[|hits| - 1] in all[..m])
            && (Filter(all[..m], p) == [] <==> hits[0] !in all[..m])
  {
    var on, later := Filter(all[..m], p), Filter(all[m..], p);
    FilterSplit(all, p, m);
    if on != [] {
      assert on[0] in on && on[|on| - 1] in on;
    }
    if later != [] {
      assert later[0] in later && later[|later| - 1] in later;
      LaterIsNotOnPage(all, m, later[0]);
      LaterIsNotOnPage(all, m, later[|later| - 1]);
    }
  }

  lemma SyncedAllOrNone(t: Tables, u: Uid, g: Gid, limit: nat)
    requires ValidTable(t.posts) && UnseenIn(t, u, g) != []
    ensures var unread, page := UnseenIn(t, u, g), GetUnseenPosts(t, u, limit);
            && (|SyncedIn(t, u, g, limit)| == |unread| <==> unread[|unread| - 1] in page)
            && (SyncedIn(t, u, g, limit) == [] <==> unread[0] !in page)
  {
    var all, page := UnseenPosts(t, u), GetUnseenPosts(t, u, limit);
    FilterAscending(t.posts.rows, PastCursor(t, u));
    hide Filter, Ascending;
    assert page == all[..|page|] by { hide UnseenPosts; }
    AllOrNone(all, InGroup(g), |page|);
  }

  /**
    The badge counts what a reconnect pushes if and only if nothing is unread, or the user is a
    member and the last unread message still fits on the page, or is no member and not even the
    first one fits.
   */
  lemma BadgeMatchesSyncIff(t: Tables, u: Uid, g: Gid, limit: nat)
    requires Valid(t)
    ensures var unread := UnseenIn(t, u, g);
            Badge(t, u, g) == |SyncedIn(t, u, g, limit)|
            <==> unread == []
                 || (if (g, u) in t.members
                     then |Filter(t.posts.rows, OlderUnread(t, u, unread[|unread| - 1].id))| < limit
                     else |Filter(t.posts.rows, OlderUnread(t, u, unread[0].id))| >= limit)
  {
    var unread := UnseenIn(t, u, g);
    if unread == [] {
      FilterSplit(UnseenPosts(t, u), InGroup(g), |GetUnseenPosts(t, u, limit)|);
    } else {
      SyncedAllOrNone(t, u, g, limit);
      assert unread[0] in unread && unread[|unread| - 1] in unread;
      GroupPageExact(t, u, limit, unread[0]);
      GroupPageExact(t, u, limit, unread[|unread| - 1]);
    }
  }

  const FOREIGN := seq(SYNC_LIMIT, i requires 0 <= i < SYNC_LIMIT => Row(i + 1, None, Post(7, 2, "", 1, 0)))

  const UNREAD := Row(SYNC_LIMIT + 1, None, Post(8, 2, "hello", 1, 0))

  /** User 1 belongs to group 8 only, and has never read group 7. */
  const CROWDED := EMPTY_TABLES.(
    users := map[1 := "ann", 2 := "bob"],
    groups := map[7 := Group(2, "theirs"), 8 := Group(1, "mine")],
    members := {(8, 1)},
    posts := Table(FOREIGN + [UNREAD], SYNC_LIMIT + 2))

  lemma CrowdedValid()
    ensures Valid(CROWDED)
  {
  }

  lemma LastOfGroup(foreign: seq<Row<Post>>, r: Row<Post>)
    requires forall x :: x in foreign ==> x.body.gid != r.body.gid
    ensures Filter(foreign, InGroup(r.body.gid)) == []
    ensures Filter(foreign + [r], InGroup(r.body.gid)) == [r]
  {
    FilterNone(foreign, InGroup(r.body.gid));
    FilterAppend(foreign, r, InGroup(r.body.gid));
  }

  lemma AllUnread(t: Tables, u: Uid)
    requires forall x :: x in t.posts.rows ==> PastCursor(t, u)(x)
    ensures UnseenPosts(t, u) == t.posts.rows
  {
    FilterSame(t.posts.rows, PastCursor(t, u), PastCursor(t, u));
  }

  lemma PageOfForeigners(t: Tables, u: Uid, foreign: seq<Row<Post>>, r: Row<Post>)
    requires UnseenPosts(t, u) == foreign + [r] && r.body.gid in t.groups && (r.body.gid, u) in t.members
    requires forall x :: x in foreign ==> x.body.gid != r.body.gid
    ensures Badge(t, u, r.body.gid) == 1 && SyncedIn(t, u, r.body.gid, |foreign|) == []
  {
    LastOfGroup(foreign, r);
    hide Filter, UnseenPosts, InGroup;
    assert UnseenIn(t, u, r.body.gid) == [r];
    assert Take(foreign + [r], |foreign|) == foreign;
  }

  /** It happens: the badge announces a member's message that two hundred foreign ones keep off the page. */
  lemma CrowdedOut()
    ensures Valid(CROWDED) && Badge(CROWDED, 1, 8) == 1 && SyncedIn(CROWDED, 1, 8, SYNC_LIMIT) == []
  {
    CrowdedValid();
    hide Valid, Filter, Badge, SyncedIn;
    AllUnread(CROWDED, 1);
    hide UnseenPosts;
    PageOfForeigners(CROWDED, 1, FOREIGN, UNREAD);
  }

  // ----- reading a group -----

  lemma ReadGroupIsClear(t: Tables, u: Uid, g: Gid)
    requires ValidTable(t.posts) && u in t.users && g in t.groups
    ensures UnseenIn(MarkedRead(t, g, u), u, g) == []
  {
    MaxIdExact(t, g);
    hide MaxId;
    var t' := MarkedRead(t, g, u);
    forall r | r in t'.posts.rows && r.body.gid == g ensures !PastCursor(t', u)(r) {
      var n :| 0 <= n < |t'.posts.rows| && t'.posts.rows[n] == r;
      assert t.posts.rows[n] in t.posts.rows;
    }
    FilterNone(UnseenPosts(t', u), InGroup(g));
  }

  lemma {:induction false} OtherGroupUntouched(rows: seq<Row<Post>>, out: seq<Row<Post>>, t: Tables, t': Tables, u: Uid, g: Gid, h: Gid)
    requires g != h && |out| == |rows|
    requires forall i :: 0 <= i < |rows| ==> out[i].id == rows[i].id && out[i].body.gid == rows[i].body.gid
    requires forall i :: 0 <= i < |rows| && rows[i].body.gid != g ==> out[i] == rows[i]
    requires Cursor(t', u, h) == Cursor(t, u, h)
    ensures Filter(Filter(out, PastCursor(t', u)), InGroup(h)) == Filter(Filter(rows, PastCursor(t, u)), InGroup(h))
  {
    if rows != [] {
      var k := |rows| - 1;
      OtherGroupUntouched(rows[..k], out[..k], t, t', u, g, h);
      FilterAppend(Filter(rows[..k], PastCursor(t, u)), rows[k], InGroup(h));
      FilterAppend(Filter(out[..k], PastCursor(t', u)), out[k], InGroup(h));
    }
  }

  /** Reading a group clears it from the user's unread messages and touches no other group's. */
  lemma ReadingClearsUnread(t: Tables, u: Uid, g: Gid, h: Gid)
    requires Valid(t) && u in t.users && g in t.groups
    ensures var t' := MarkedRead(t, g, u);
            if h == g then UnseenIn(t', u, h) == [] else UnseenIn(t', u, h) == UnseenIn(t, u, h)
  {
    hide MaxId;
    if h == g {
      ReadGroupIsClear(t, u, g);
    } else if MaxId(t, g).Some? {
      var out := CountReads(t.posts.rows, g, Cursor(t, u, g), MaxId(t, g).value, u);
      OtherGroupUntouched(t.posts.rows, out, t, MarkedRead(t, g, u), u, g, h);
    }
  }
}
