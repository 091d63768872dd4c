/**
  What the deltas returned by mark_group_read_and_get_delta amount to over a run,
  and when read counts stay within the member count.
 */
module Deltas {
  import opened Base
  import opened Schema
  import opened Receipts

  predicate HoldsId(delta: seq<DeltaItem>, id: nat) {
    exists n :: 0 <= n < |delta| && delta[n].msgId == id
  }

  /**
    What is known about a call that returned: its items lie in its range, in order; an item
    whose row still exists is a message of that group and of that sender; none is the viewer's
    own; and no live row is missing.
   */
  ghost predicate DeltaOk(t: Tables, c: Call) {
    c.stage.Returned? ==>
      && (forall n :: 0 <= n < |c.stage.delta| ==>
            c.stage.lo < c.stage.delta[n].msgId <= c.stage.latest && c.stage.delta[n].from != c.viewer)
      && (forall m, n :: 0 <= m < n < |c.stage.delta| ==> c.stage.delta[m].msgId < c.stage.delta[n].msgId)
      && (forall n, r :: 0 <= n < |c.stage.delta| && r in t.posts.rows && r.id == c.stage.delta[n].msgId ==>
            r.body.gid == c.gid && r.body.from == c.stage.delta[n].from)
      && (forall r :: r in t.posts.rows && Covers(c, r.body.gid, r.id, r.body.from) ==> HoldsId(c.stage.delta, r.id))
  }

  ghost predicate DeltaInv(s: State) {
    forall i :: 0 <= i < |s.calls| ==> DeltaOk(s.db, s.calls[i])
  }

  /** Each fetched item describes a row of the group in the range, by somebody else. */
  lemma FetchedItem(t: Tables, gid: Gid, lo: nat, hi: nat, viewer: Uid, n: nat)
    requires n < |FetchDelta(t, gid, lo, hi, viewer)|
    ensures var d := FetchDelta(t, gid, lo, hi, viewer)[n];
            exists r :: r in t.posts.rows && r.body.gid == gid && lo < r.id <= hi && r.body.from != viewer
              && d == DeltaItem(r.id, r.body.from, r.body.readCount, Total(t, gid))
  {
    var rows := Filter(t.posts.rows, InDelta(gid, lo, hi, viewer));
    assert rows[n] in rows;
  }

  /** The items ascend, and every row of the range is among them. */
  lemma FetchedAll(t: Tables, gid: Gid, lo: nat, hi: nat, viewer: Uid)
    requires ValidTable(t.posts)
    ensures var delta := FetchDelta(t, gid, lo, hi, viewer);
            && (forall m, n :: 0 <= m < n < |delta| ==> delta[m].msgId < delta[n].msgId)
            && (forall r :: r in t.posts.rows && r.body.gid == gid && lo < r.id <= hi && r.body.from != viewer ==>
                  HoldsId(delta, r.id))
  {
    var p := InDelta(gid, lo, hi, viewer);
    var rows := Filter(t.posts.rows, p);
    var delta := FetchDelta(t, gid, lo, hi, viewer);
    FilterAscending(t.posts.rows, p);
    forall r | r in t.posts.rows && p(r) ensures HoldsId(delta, r.id) {
      var n :| 0 <= n < |rows| && rows[n] == r;
      assert delta[n].msgId == r.id;
    }
  }

  lemma FetchOk(t: Tables, c: Call, latest: nat, lo: nat)
    requires ValidTable(t.posts)
    ensures DeltaOk(t, c.(stage := Returned(latest, lo, FetchDelta(t, c.gid, lo, latest, c.viewer))))
  {
    var delta := FetchDelta(t, c.gid, lo, latest, c.viewer);
    FetchedAll(t, c.gid, lo, latest, c.viewer);
    forall n | 0 <= n < |delta|
      ensures lo < delta[n].msgId <= latest && delta[n].from != c.viewer
      ensures forall r :: r in t.posts.rows && r.id == delta[n].msgId ==> r.body.gid == c.gid && r.body.from == delta[n].from
    {
      FetchedItem(t, c.gid, lo, latest, c.viewer, n);
    }
    hide FetchDelta, HoldsId;
  }

  /** Rows that kept their identity, or are newer than everything a call saw, leave its delta complete. */
  lemma DeltaKept(t: Tables, t': Tables, c: Call)
    requires DeltaOk(t, c)
    requires forall r :: r in t'.posts.rows ==>
               || (exists q :: q in t.posts.rows && q.id == r.id && q.body.gid == r.body.gid && q.body.from == r.body.from)
               || (Passed(c) ==> c.stage.latest < r.id)
    ensures DeltaOk(t', c)
  {
  }

  lemma CountKeepsIdentity(rows: seq<Row<Post>>, c: Call)
    requires c.stage.Upserted?
    ensures forall r :: r in CountReads(rows, c.gid, c.stage.lo, c.stage.latest, c.viewer) ==>
              exists q :: q in rows && q.id == r.id && q.body.gid == r.body.gid && q.body.from == r.body.from
  {
  }

  /** rows_affected == 0: the early return with an empty delta misses nothing. */
  lemma NothingToCount(s: State, i: nat)
    requires i < |s.calls| && s.calls[i].stage.Upserted?
    ensures DeltaOk(AdvanceCall(s, i).db, AdvanceCall(s, i).calls[i])
  {
  }

  lemma AdvanceDeltas(s: State, i: nat)
    requires i < |s.calls| && ValidTable(s.db.posts) && DeltaInv(s)
    ensures DeltaInv(AdvanceCall(s, i))
  {
    hide MaxId, FetchDelta, CountReads;
    var s' := AdvanceCall(s, i);
    var c := s.calls[i];
    forall j | 0 <= j < |s'.calls| ensures DeltaOk(s'.db, s'.calls[j]) {
      if c.stage.Upserted? {
        CountKeepsIdentity(s.db.posts.rows, c);
      }
      if j != i {
        DeltaKept(s.db, s'.db, s.calls[j]);
      } else if c.stage.Incremented? {
        FetchOk(s.db, c, c.stage.latest, c.stage.lo);
      } else if c.stage.Upserted? {
        NothingToCount(s, i);
      }
    }
  }

  lemma PostsValid(t: Tables)
    requires Valid(t)
    ensures ValidTable(t.posts)
  {
  }

  lemma StepDeltas(s: State, e: Event)
    requires Inv(s) && DeltaInv(s)
    ensures DeltaInv(Step(s, e))
  {
    hide KeysHold, ReferencesHold, LiveInv, CoverInv, CountInv, AdvanceCall, Exec;
    var s' := Step(s, e);
    if e.Advance? && e.i < |s.calls| {
      assert ValidTable(s.db.posts) by { PostsValid(s.db); }
      AdvanceDeltas(s, e.i);
    } else if e.Other? && Allowed(s, e.stmt) {
      forall j | 0 <= j < |s'.calls| ensures DeltaOk(s'.db, s'.calls[j]) {
        assert CallInv(s, s.calls[j]);
        forall r | r in s'.db.posts.rows ensures r in s.db.posts.rows || s.db.posts.next == r.id {
          OtherPosts(s.db, e.stmt, r);
        }
        DeltaKept(s.db, s'.db, s.calls[j]);
      }
    }
  }

  lemma {:induction false} RunDeltas(events: seq<Event>)
    ensures DeltaInv(Run(INITIAL, events))
  {
    hide Inv, Step, DeltaOk;
    if events != [] {
      var before := events[..|events| - 1];
      RunDeltas(before);
      RunInv(before);
      StepDeltas(Run(INITIAL, before), events[|events| - 1]);
    }
  }

  predicate DeltaOf(c: Call, v: Uid, g: Gid, id: nat) {
    c.viewer == v && c.gid == g && c.stage.Returned? && HoldsId(c.stage.delta, id)
  }

  /** Each delta is ascending, holds no message of the viewer, and shares no message with another delta of theirs. */
  lemma DeltasAreDisjoint(events: seq<Event>, i: nat, j: nat, id: nat)
    requires StrictRun(events)
    requires var s := Run(INITIAL, events);
             && i < |s.calls| && j < |s.calls| && SameKey(s.calls[i], s.calls[j])
             && DeltaOf(s.calls[i], s.calls[i].viewer, s.calls[i].gid, id)
             && DeltaOf(s.calls[j], s.calls[j].viewer, s.calls[j].gid, id)
    ensures i == j
    ensures var c := Run(INITIAL, events).calls[i];
            && (forall m, n :: 0 <= m < n < |c.stage.delta| ==> c.stage.delta[m].msgId < c.stage.delta[n].msgId)
            && (forall n :: 0 <= n < |c.stage.delta| ==> c.stage.delta[n].from != c.viewer)
  {
    hide Run;
    var s := Run(INITIAL, events);
    RunStrict(events);
    RunDeltas(events);
    assert DeltaOk(s.db, s.calls[i]) && DeltaOk(s.db, s.calls[j]);
    assert i != j ==> Apart(s.calls[i], s.calls[j]);
  }

  /** No call of this viewer for this group is between its upsert and its answer, or failed there. */
  predicate AllAnswered(s: State, v: Uid, g: Gid) {
    forall i | 0 <= i < |s.calls| ::
      s.calls[i].viewer == v && s.calls[i].gid == g && Passed(s.calls[i]) ==> s.calls[i].stage.Returned?
  }

  /**
    Together the deltas of a viewer for a group hold exactly those live messages that are of
    that group, of somebody else, and at or below the viewer's cursor, however the viewer left
    and rejoined in between. (Overlapping calls may repeat messages, but never miss one.)
   */
  lemma DeltasCoverWhatWasRead(events: seq<Event>, v: Uid, g: Gid, r: Row<Post>)
    requires var s := Run(INITIAL, events); r in s.db.posts.rows && AllAnswered(s, v, g)
    ensures var s := Run(INITIAL, events);
            (exists i :: 0 <= i < |s.calls| && DeltaOf(s.calls[i], v, g, r.id))
            <==> r.body.gid == g && r.body.from != v && r.id <= Reach(s, v, g)
  {
    hide Run, Valid, LiveInv, CountInv;
    var s := Run(INITIAL, events);
    RunInv(events);
    RunDeltas(events);
    PositiveIds(s.db, r);
    if i :| 0 <= i < |s.calls| && DeltaOf(s.calls[i], v, g, r.id) {
      assert DeltaOk(s.db, s.calls[i]) && CallInv(s, s.calls[i]);
    }
    if r.body.gid == g && r.body.from != v && r.id <= Reach(s, v, g) {
      assert HasCover(s.calls, v, g, r.id);
      var i :| 0 <= i < |s.calls| && s.calls[i].viewer == v && s.calls[i].gid == g && Spans(s.calls[i], r.id);
      assert DeltaOk(s.db, s.calls[i]);
      assert Covers(s.calls[i], r.body.gid, r.id, r.body.from);
      assert DeltaOf(s.calls[i], v, g, r.id);
    }
  }

  // ----- groups that only grow -----

  /** Members read and post, and nothing that shrinks a group happens. */
  predicate Grows(s: State, e: Event) {
    match e
    case Begin(v, g) => (g, v) in s.db.members && NoneInFlight(s, v, g)
    case Other(stmt) =>
      && !stmt.DeleteMember? && !stmt.DeleteGroup? && !stmt.DeleteUserRow?
      && (stmt.InsertPost? ==> (stmt.post.gid, stmt.post.from) in s.db.members)
    case _ => true
  }

  predicate GrowingRun(events: seq<Event>) {
    events == [] ||
    (var before := events[..|events| - 1];
     GrowingRun(before) && Grows(Run(INITIAL, before), events[|events| - 1]))
  }

  ghost predicate MembersInv(s: State) {
    && (forall i :: 0 <= i < |s.calls| ==> (s.calls[i].gid, s.calls[i].viewer) in s.db.members)
    && (forall k :: k in s.reach ==> (k.1, k.0) in s.db.members)
    && (forall r :: r in s.db.posts.rows ==> (r.body.gid, r.body.from) in s.db.members)
  }

  lemma OtherMembers(t: Tables, stmt: Stmt)
    requires !stmt.DeleteMember? && !stmt.DeleteGroup? && !stmt.DeleteUserRow?
    requires !stmt.UpsertCursor? && !stmt.IncrementReads?
    ensures t.members <= Exec(t, stmt).members
    ensures forall r :: r in Exec(t, stmt).posts.rows && r !in t.posts.rows ==>
              stmt.InsertPost? && r.body.gid == stmt.post.gid && r.body.from == stmt.post.from
  {
  }

  lemma AdvanceMembers(s: State, i: nat)
    requires i < |s.calls| && MembersInv(s)
    ensures MembersInv(AdvanceCall(s, i))
  {
    hide MaxId, FetchDelta, CountReads;
    if s.calls[i].stage.Upserted? {
      CountKeepsIdentity(s.db.posts.rows, s.calls[i]);
    }
  }

  lemma StepMembers(s: State, e: Event)
    requires MembersInv(s) && Grows(s, e)
    ensures MembersInv(Step(s, e))
  {
    hide AdvanceCall, Exec;
    match e
    case Advance(i) => if i < |s.calls| { AdvanceMembers(s, i); }
    case Other(stmt) => if Allowed(s, stmt) { OtherMembers(s.db, stmt); }
    case _ =>
  }

  lemma EmptyMembers()
    ensures MembersInv(INITIAL)
  {
  }

  lemma {:induction false} RunMembers(events: seq<Event>)
    requires GrowingRun(events)
    ensures MembersInv(Run(INITIAL, events)) && StrictRun(events)
  {
    hide Step, MembersInv;
    if events != [] {
      var before := events[..|events| - 1];
      RunMembers(before);
      StepMembers(Run(INITIAL, before), events[|events| - 1]);
    } else {
      EmptyMembers();
    }
  }

  lemma SubsetSize<T>(a: set<T>, b: set<T>)
    requires a <= b
    ensures |a| <= |b|
  {
    assert b == a + (b - a);
  }

  /** As long as a group only grows, "read by n of m" never shows n above m. */
  lemma ReadNeverExceedsTotal(events: seq<Event>, r: Row<Post>)
    requires GrowingRun(events)
    requires r in Run(INITIAL, events).db.posts.rows
    ensures r.body.readCount <= Total(Run(INITIAL, events).db, r.body.gid)
  {
    hide Run, StrictRun, GrowingRun, Covering;
    var s := Run(INITIAL, events);
    RunMembers(events);
    CountsAgreeWithCursors(events, r);
    var readers := Reached(s, r.body.gid, r.id, r.body.from);
    var others := MemberSet(s.db, r.body.gid) - {r.body.from};
    assert (r.body.gid, r.body.from) in s.db.members;
    assert r.body.from in MemberSet(s.db, r.body.gid);
    assert readers <= others;
    SubsetSize(readers, others);
  }

  // ----- groups in general -----

  /**
    "Read by n of m" in general: n stays within m if and only if the readers who are not members
    now - they have left, or never joined, for the history request does not ask - are fewer than
    the members who have not read the message, its sender included, together with the readers
    not counted.
   */
  lemma ReadWithinTotalIff(events: seq<Event>, r: Row<Post>)
    requires StrictRun(events)
    requires r in Run(INITIAL, events).db.posts.rows
    ensures var s := Run(INITIAL, events);
            var present := MemberSet(s.db, r.body.gid);
            var readers := Reached(s, r.body.gid, r.id, r.body.from);
            r.body.readCount <= Total(s.db, r.body.gid)
            <==> |readers - present|
                 < |present - readers|
                   + |Covering(s.calls, Pending, r.body.gid, r.id, r.body.from)|
                   + |Covering(s.calls, Lost, r.body.gid, r.id, r.body.from)|
  {
    hide Run, StrictRun, Covering, Reached;
    var s := Run(INITIAL, events);
    CountsAgreeWithCursors(events, r);
    var present := MemberSet(s.db, r.body.gid);
    var readers := Reached(s, r.body.gid, r.id, r.body.from);
    assert readers == (readers - present) + (readers * present);
    assert present == (present - readers) + (readers * present);
  }

  lemma LeavingStep(events: seq<Event>, g: Gid, leaver: Uid)
    ensures var more := events + [Other(DeleteMember(g, leaver))];
            var s, s' := Run(INITIAL, events), Run(INITIAL, more);
            && s' == s.(db := s.db.(members := s.db.members - {(g, leaver)}))
            && MemberSet(s'.db, g) == MemberSet(s.db, g) - {leaver}
            && (StrictRun(events) ==> StrictRun(more))
  {
    RunOneMore(events, Other(DeleteMember(g, leaver)));
    hide Run, StrictRun;
    var s := Run(INITIAL, events);
    var t' := s.db.(members := s.db.members - {(g, leaver)});
    forall u ensures u in MemberSet(t', g) <==> u in MemberSet(s.db, g) - {leaver} {
      if u in MemberSet(s.db, g) && u != leaver {
        assert (g, u) in t'.members;
      }
    }
  }

  lemma MembersAreUsers(events: seq<Event>, g: Gid, u: Uid)
    requires u in MemberSet(Run(INITIAL, events).db, g)
    ensures u in Run(INITIAL, events).db.users
  {
    hide Run;
    RunInv(events);
    var m :| m in Run(INITIAL, events).db.members && m.0 == g && m.1 == u;
  }

  lemma WithoutLeaver(present: set<Uid>, readers: set<Uid>, sender: Uid, leaver: Uid, uncounted: nat)
    requires readers <= present && sender in present && sender !in readers && leaver in present
    ensures |readers - (present - {leaver})| < |(present - {leaver}) - readers| + uncounted
            <==> present - readers != {sender} || uncounted > 0
  {
    var rest := present - {leaver};
    if leaver in readers {
      assert readers - rest == {leaver} && rest - readers == present - readers;
      assert |present - readers| == 1 + |present - readers - {sender}|;
    } else {
      assert readers - rest == {} && rest - readers == (present - readers) - {leaver};
      if present - readers == {sender} {
        assert leaver in present - readers && rest - readers == {};
      } else {
        var u :| u in present - readers && u != sender;
        assert (if leaver == sender then u else sender) in rest - readers;
      }
    }
  }

  /** In a growing group, the members who have not read the message are the sender and those whose cursor is below it. */
  lemma UnreadMembers(events: seq<Event>, r: Row<Post>)
    requires GrowingRun(events) && r in Run(INITIAL, events).db.posts.rows
    ensures var s := Run(INITIAL, events);
            var present, readers := MemberSet(s.db, r.body.gid), Reached(s, r.body.gid, r.id, r.body.from);
            && readers <= present && r.body.from in present && r.body.from !in readers
            && (present - readers != {r.body.from}
                <==> exists u :: u in present && u != r.body.from && Cursor(s.db, u, r.body.gid) < r.id)
  {
    hide Run, GrowingRun, StrictRun, Cursor;
    var s := Run(INITIAL, events);
    var present, readers := MemberSet(s.db, r.body.gid), Reached(s, r.body.gid, r.id, r.body.from);
    RunMembers(events);
    assert (r.body.gid, r.body.from) in s.db.members;
    forall u | u in present ensures u in readers <==> u != r.body.from && r.id <= Cursor(s.db, u, r.body.gid) {
      MembersAreUsers(events, r.body.gid, u);
      ReachedIsStoredCursor(events, r, u);
    }
    assert r.body.from in present - readers;
    hide MemberSet, Reached, MembersInv;
    if present - readers != {r.body.from} {
      var u :| u in present - readers && u != r.body.from;
      assert u in present && u != r.body.from && Cursor(s.db, u, r.body.gid) < r.id;
    }
    if u :| u in present && u != r.body.from && Cursor(s.db, u, r.body.gid) < r.id {
      assert u in present - readers;
    }
  }

  /**
    The first departure from a group that has only grown keeps "read by n of m" sensible if and
    only if, at that moment, some member other than the sender has not read the message, or some
    reader has not been counted.
   */
  lemma LeavingKeepsBound(events: seq<Event>, r: Row<Post>, leaver: Uid)
    requires GrowingRun(events)
    requires r in Run(INITIAL, events).db.posts.rows && (r.body.gid, leaver) in Run(INITIAL, events).db.members
    ensures var s := Run(INITIAL, events);
            var s' := Run(INITIAL, events + [Other(DeleteMember(r.body.gid, leaver))]);
            r.body.readCount <= Total(s'.db, r.body.gid)
            <==> (exists u :: u in MemberSet(s.db, r.body.gid) && u != r.body.from && Cursor(s.db, u, r.body.gid) < r.id)
                 || Covering(s.calls, Pending, r.body.gid, r.id, r.body.from) != {}
                 || Covering(s.calls, Lost, r.body.gid, r.id, r.body.from) != {}
  {
    hide Run, GrowingRun, StrictRun, Covering, Cursor;
    var s := Run(INITIAL, events);
    RunMembers(events);
    LeavingStep(events, r.body.gid, leaver);
    ReadWithinTotalIff(events + [Other(DeleteMember(r.body.gid, leaver))], r);
    UnreadMembers(events, r);
    assert leaver in MemberSet(s.db, r.body.gid);
    WithoutLeaver(MemberSet(s.db, r.body.gid), Reached(s, r.body.gid, r.id, r.body.from), r.body.from, leaver,
                  |Covering(s.calls, Pending, r.body.gid, r.id, r.body.from)|
                  + |Covering(s.calls, Lost, r.body.gid, r.id, r.body.from)|);
    hide MemberSet, MembersInv;
  }
}
