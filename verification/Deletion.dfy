/**
  delete_user: what its ordered statements amount to, and why the order matters.
 */
module Deletion {
  import opened Base
  import opened Schema

  predicate Owned(t: Tables, u: Uid, g: Gid) {
    g in t.groups && t.groups[g].owner == u
  }

  function OwnedGroups(t: Tables, u: Uid): set<Gid> {
    set g | g in t.groups && t.groups[g].owner == u
  }

  function KeptPost(t: Tables, u: Uid): Row<Post> -> bool {
    (r: Row<Post>) => r.body.from != u && !Owned(t, u, r.body.gid)
  }

  /** The account erased: every row that names the user or belongs to a group they own, and no other. */
  function Purge(t: Tables, u: Uid): Tables {
    Tables(
      t.users - {u},
      t.chats.(rows := Filter(t.chats.rows, NotParty(u))),
      (map k | k in t.readCursors && k.0 != u && k.1 != u :: t.readCursors[k]),
      (map g | g in t.groups && t.groups[g].owner != u :: t.groups[g]),
      (set m | m in t.members && m.1 != u && !Owned(t, u, m.0)),
      t.posts.(rows := Filter(t.posts.rows, KeptPost(t, u))),
      (map c | c in t.cursors && c.0 != u && !Owned(t, u, c.1) :: t.cursors[c]),
      (set f | f in t.friends && f.0 != u && f.1 != u))
  }

  function OutsideGroups(gs: set<Gid>): Row<Post> -> bool {
    (r: Row<Post>) => r.body.gid !in gs
  }

  /** Several groups deleted, with their cascades. */
  function WithoutGroups(t: Tables, gs: set<Gid>): Tables {
    t.(groups := t.groups - gs,
       members := (set m | m in t.members && m.0 !in gs),
       posts := t.posts.(rows := Filter(t.posts.rows, OutsideGroups(gs))),
       cursors := (map k | k in t.cursors && k.1 !in gs :: t.cursors[k]))
  }

  lemma NoGroupsDeleted(t: Tables)
    ensures WithoutGroups(t, {}) == t
  {
    FilterSame(t.posts.rows, OutsideGroups({}), OutsideGroups({}));
    assert WithoutGroups(t, {}).cursors == t.cursors;
    assert WithoutGroups(t, {}).members == t.members;
  }

  /** The loop over owned groups: deleting one more group extends the deleted set. */
  lemma OneMoreGroup(t: Tables, gs: set<Gid>, g: Gid)
    ensures WithoutGroup(WithoutGroups(t, gs), g) == WithoutGroups(t, gs + {g})
  {
    var l, r := WithoutGroup(WithoutGroups(t, gs), g), WithoutGroups(t, gs + {g});
    FilterTwice(t.posts.rows, OutsideGroups(gs), OutsideGroup(g), OutsideGroups(gs + {g}));
    assert l.groups == r.groups;
    assert l.members == r.members;
    assert l.cursors == r.cursors;
  }

  /** The statements of delete_user before the last one. */
  function BeforeUserRow(t: Tables, u: Uid): Tables {
    var t1 := WithoutChats(t, u);
    var t2 := WithoutGroups(t1, OwnedGroups(t1, u));
    WithoutReadCursors(WithoutPosts(t2, u), u)
  }

  lemma PostsAfterOrder(t: Tables, u: Uid)
    ensures BeforeUserRow(t, u).posts.rows == Filter(t.posts.rows, KeptPost(t, u))
  {
    FilterTwice(t.posts.rows, OutsideGroups(OwnedGroups(t, u)), NotFrom(u), KeptPost(t, u));
  }

  /** In this order the final statement is never refused: nothing refers to the user without a cascade. */
  lemma LastStatementAccepted(t: Tables, u: Uid)
    ensures Accepts(BeforeUserRow(t, u), DeleteUserRow(u))
  {
  }

  /** Together the ordered statements are exactly the purge. */
  lemma OrderedDeletionIsPurge(t: Tables, u: Uid)
    ensures WithoutUser(BeforeUserRow(t, u), u) == Purge(t, u)
  {
    PostsAfterOrder(t, u);
    hide Filter;
    var out, purged := WithoutUser(BeforeUserRow(t, u), u), Purge(t, u);
    assert out.groups == purged.groups;
    assert out.members == purged.members;
    assert out.cursors == purged.cursors;
  }

  /** Some row still names the user. */
  ghost predicate Names(t: Tables, u: Uid) {
    || u in t.users
    || (exists r :: r in t.chats.rows && (r.body.from == u || r.body.to == u))
    || (exists k :: k in t.readCursors && (k.0 == u || k.1 == u))
    || (exists g :: g in t.groups && t.groups[g].owner == u)
    || (exists m :: m in t.members && m.1 == u)
    || (exists r :: r in t.posts.rows && r.body.from == u)
    || (exists c :: c in t.cursors && c.0 == u)
    || (exists f :: f in t.friends && (f.0 == u || f.1 == u))
  }

  lemma PurgeKeys(t: Tables, u: Uid)
    requires KeysHold(t)
    ensures KeysHold(Purge(t, u))
  {
    FilterValidTable(t.chats, NotParty(u));
    FilterValidTable(t.posts, KeptPost(t, u));
  }

  /**
    After deletion nothing names the user or an owned group, the schema holds, and every other
    row of every table is still there unchanged, read counts and cursors included.
   */
  lemma PurgeErasesExactly(t: Tables, u: Uid)
    requires Valid(t)
    ensures Valid(Purge(t, u)) && !Names(Purge(t, u), u)
    ensures forall r :: r in Purge(t, u).posts.rows <==>
              r in t.posts.rows && r.body.from != u && t.groups[r.body.gid].owner != u
    ensures forall r :: r in Purge(t, u).chats.rows <==> r in t.chats.rows && r.body.from != u && r.body.to != u
    ensures forall g :: g in Purge(t, u).groups <==> g in t.groups && t.groups[g].owner != u
    ensures forall g :: g in Purge(t, u).groups ==> Purge(t, u).groups[g] == t.groups[g]
    ensures forall v :: v in Purge(t, u).users <==> v in t.users && v != u
    ensures forall v :: v in Purge(t, u).users ==> Purge(t, u).users[v] == t.users[v]
    ensures forall m :: m in Purge(t, u).members <==> m in t.members && m.1 != u && t.groups[m.0].owner != u
    ensures forall f :: f in Purge(t, u).friends <==> f in t.friends && f.0 != u && f.1 != u
    ensures forall c :: c in Purge(t, u).cursors <==> c in t.cursors && c.0 != u && t.groups[c.1].owner != u
    ensures forall c :: c in Purge(t, u).cursors ==> Purge(t, u).cursors[c] == t.cursors[c]
    ensures forall k :: k in Purge(t, u).readCursors <==> k in t.readCursors && k.0 != u && k.1 != u
    ensures forall k :: k in Purge(t, u).readCursors ==> Purge(t, u).readCursors[k] == t.readCursors[k]
  {
    hide KeysHold;
    PurgeKeys(t, u);
  }
}
