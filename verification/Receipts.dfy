/**
  Group read receipts as a protocol. `mark_group_read_and_get_delta` is five
  statements without a transaction; here each statement is one step of one call,
  and any number of calls interleave with each other and with every other
  statement of the server.
 */
module Receipts {
  import opened Base
  import opened Schema

  /** What a call has learnt, named after the statement it has completed. */
  datatype Stage =
    | Begun
    | SawLatest(latest: nat)
    | SawCursor(latest: nat, lo: nat)
    | Upserted(latest: nat, lo: nat)
    | Incremented(latest: nat, lo: nat)
    | Returned(latest: nat, lo: nat, delta: seq<DeltaItem>)
    | GroupEmpty
    | FailedBeforeCursor
    | FailedIncrement(latest: nat, lo: nat)
    | FailedFetch(latest: nat, lo: nat)

  datatype Call = Call(viewer: Uid, gid: Gid, stage: Stage)

  /**
    The database, every call ever begun (finished ones keep their last stage), and
    history: the highest cursor each (user, group) ever held, and the ids ever issued.
   */
  datatype State = State(
    db: Tables,
    calls: seq<Call>,
    reach: map<(Uid, Gid), nat>,
    usedUids: set<Uid>,
    usedGids: set<Gid>)

  const INITIAL := State(EMPTY_TABLES, [], map[], {}, {})

  datatype Event =
    | Begin(viewer: Uid, gid: Gid)
    | Advance(i: nat)
    | Fail(i: nat)
    | Other(stmt: Stmt)

  /** The next statement of a call: its effect on the tables and what the call knows afterwards. */
  function NextStatement(t: Tables, c: Call): (Tables, Stage) {
    match c.stage
    case Begun =>
      (match MaxId(t, c.gid)
       case None => (t, GroupEmpty)
       case Some(latest) => (t, SawLatest(latest)))
    case SawLatest(latest) => (t, SawCursor(latest, Cursor(t, c.viewer, c.gid)))
    case SawCursor(latest, lo) =>
      var upsert := UpsertCursor(c.viewer, c.gid, latest);
      if Accepts(t, upsert) then (Effect(t, upsert), Upserted(latest, lo)) else (t, FailedBeforeCursor)
    case Upserted(latest, lo) =>
      (Effect(t, IncrementReads(c.gid, lo, latest, c.viewer)),
       if Filter(t.posts.rows, InDelta(c.gid, lo, latest, c.viewer)) == [] then Returned(latest, lo, [])
       else Incremented(latest, lo))
    case Incremented(latest, lo) => (t, Returned(latest, lo, FetchDelta(t, c.gid, lo, latest, c.viewer)))
    case _ => (t, c.stage)
  }

  /** The stage a call ends in when its next statement fails; the statement itself has no effect. */
  function AfterFailure(stage: Stage): Stage {
    match stage
    case Begun => FailedBeforeCursor
    case SawLatest(_) => FailedBeforeCursor
    case SawCursor(_, _) => FailedBeforeCursor
    case Upserted(latest, lo) => FailedIncrement(latest, lo)
    case Incremented(latest, lo) => FailedFetch(latest, lo)
    case _ => stage
  }

  /** Statements issued by other handlers; UUIDs of new users and groups are fresh. */
  predicate Allowed(s: State, stmt: Stmt) {
    && !stmt.UpsertCursor? && !stmt.IncrementReads?
    && (stmt.InsertUser? ==> stmt.uid !in s.usedUids)
    && (stmt.InsertGroup? ==> stmt.gid !in s.usedGids)
  }

  function Reach(s: State, u: Uid, g: Gid): nat {
    Get(s.reach, (u, g), 0)
  }

  function AdvanceCall(s: State, i: nat): State
    requires i < |s.calls|
  {
    var c := s.calls[i];
    var (t, stage) := NextStatement(s.db, c);
    s.(db := t,
       calls := s.calls[i := c.(stage := stage)],
       reach := if c.stage.SawCursor? && stage.Upserted?
                then s.reach[(c.viewer, c.gid) := Max(Reach(s, c.viewer, c.gid), Cursor(t, c.viewer, c.gid))]
                else s.reach)
  }

  function RunOther(s: State, stmt: Stmt): State {
    s.(db := Exec(s.db, stmt),
       usedUids := if stmt.InsertUser? then s.usedUids + {stmt.uid} else s.usedUids,
       usedGids := if stmt.InsertGroup? then s.usedGids + {stmt.gid} else s.usedGids)
  }

  function Step(s: State, e: Event): State {
    match e
    case Begin(v, g) => s.(calls := s.calls + [Call(v, g, Begun)])
    case Advance(i) => if i < |s.calls| then AdvanceCall(s, i) else s
    case Fail(i) =>
      if i < |s.calls| then s.(calls := s.calls[i := s.calls[i].(stage := AfterFailure(s.calls[i].stage))]) else s
    case Other(stmt) => if Allowed(s, stmt) then RunOther(s, stmt) else s
  }

  function Run(s: State, events: seq<Event>): State {
    if events == [] then s else Step(Run(s, events[..|events| - 1]), events[|events| - 1])
  }

  // ----- credits: how a call stands towards the messages it covers -----

  datatype Credit = NotYet | Pending | Counted | Lost

  /** Pending: cursor moved, increment not run. Counted: increment ran. Lost: increment failed. */
  function CreditOf(stage: Stage): Credit {
    match stage
    case Upserted(_, _) => Pending
    case Incremented(_, _) => Counted
    case Returned(_, _, _) => Counted
    case FailedFetch(_, _) => Counted
    case FailedIncrement(_, _) => Lost
    case _ => NotYet
  }

  predicate Passed(c: Call) {
    CreditOf(c.stage) != NotYet
  }

  predicate Spans(c: Call, id: nat) {
    Passed(c) && c.stage.lo < id <= c.stage.latest
  }

  predicate Covers(c: Call, gid: Gid, id: nat, from: Uid) {
    Spans(c, id) && c.gid == gid && c.viewer != from
  }

  /** The calls with the given credit that cover a message. */
  function Covering(calls: seq<Call>, k: Credit, gid: Gid, id: nat, from: Uid): set<nat> {
    set i | 0 <= i < |calls| && CreditOf(calls[i].stage) == k && Covers(calls[i], gid, id, from)
  }

  /** Users other than the sender whose cursor ever reached the message. */
  function Reached(s: State, gid: Gid, id: nat, from: Uid): set<Uid> {
    set k | k in s.reach && k.1 == gid && id <= s.reach[k] && k.0 != from :: k.0
  }

  // ----- the invariant -----

  ghost predicate DbInv(s: State) {
    && Valid(s.db)
    && s.db.users.Keys <= s.usedUids
    && s.db.groups.Keys <= s.usedGids
  }

  ghost predicate CallInv(s: State, c: Call) {
    && (c.stage.SawLatest? ==> c.stage.latest < s.db.posts.next)
    && (c.stage.SawCursor? ==> c.stage.latest < s.db.posts.next && c.stage.lo <= Reach(s, c.viewer, c.gid))
    && (Passed(c) ==> c.stage.latest < s.db.posts.next && c.stage.latest <= Reach(s, c.viewer, c.gid))
  }

  ghost predicate IdsInv(s: State) {
    && (forall k :: k in s.reach ==> s.reach[k] < s.db.posts.next && k.0 in s.usedUids && k.1 in s.usedGids)
    && (forall i :: 0 <= i < |s.calls| ==> CallInv(s, s.calls[i]))
  }

  /** For a user and group that both exist, the stored cursor is the highest ever held. */
  ghost predicate LiveInv(s: State) {
    forall u, g :: u in s.db.users && g in s.db.groups ==> Cursor(s.db, u, g) == Reach(s, u, g)
  }

  ghost predicate HasCover(calls: seq<Call>, v: Uid, g: Gid, x: nat) {
    exists i :: 0 <= i < |calls| && calls[i].viewer == v && calls[i].gid == g && Spans(calls[i], x)
  }

  /** Every position a cursor ever passed lies in the range of some call that moved it. */
  ghost predicate CoverInv(s: State) {
    forall v, g, x: nat :: 0 < x <= Reach(s, v, g) ==> HasCover(s.calls, v, g, x)
  }

  /** read_count is the number of increments whose range held the message. */
  ghost predicate CountInv(s: State) {
    forall r :: r in s.db.posts.rows ==>
      r.body.readCount == |Covering(s.calls, Counted, r.body.gid, r.id, r.body.from)|
  }

  ghost predicate Inv(s: State) {
    DbInv(s) && IdsInv(s) && LiveInv(s) && CoverInv(s) && CountInv(s)
  }

  // ----- preservation -----

  lemma InitialInv()
    ensures Inv(INITIAL)
  {
  }

  /** Moving one call changes at most that call's membership in a covering set. */
  lemma CoveringUpdate(calls: seq<Call>, i: nat, c: Call, k: Credit, gid: Gid, id: nat, from: Uid)
    requires i < |calls|
    ensures |Covering(calls[i := c], k, gid, id, from)|
            == |Covering(calls, k, gid, id, from)|
               - (if i in Covering(calls, k, gid, id, from) then 1 else 0)
               + (if CreditOf(c.stage) == k && Covers(c, gid, id, from) then 1 else 0)
  {
    hide CreditOf, Covers;
    var before := Covering(calls, k, gid, id, from);
    var after := Covering(calls[i := c], k, gid, id, from);
    var others := before - {i};
    forall x: nat | x != i ensures x in after <==> x in before {
      assert x < |calls| ==> calls[i := c][x] == calls[x];
    }
    assert after - {i} == others;
    assert |before| == |others| + (if i in before then 1 else 0);
    assert after == (after - {i}) + (if i in after then {i} else {});
    assert i in after <==> CreditOf(c.stage) == k && Covers(c, gid, id, from);
  }

  /** A call that moves without changing its range or credit leaves every count alone. */
  lemma QuietMove(s: State, s': State, i: nat, c: Call)
    requires i < |s.calls| && s'.calls == s.calls[i := c]
    requires s'.db.posts.rows == s.db.posts.rows
    requires CountInv(s)
    requires CreditOf(c.stage) == Counted <==> CreditOf(s.calls[i].stage) == Counted
    requires CreditOf(c.stage) == Counted ==>
               c == s.calls[i].(stage := c.stage) && c.stage.lo == s.calls[i].stage.lo && c.stage.latest == s.calls[i].stage.latest
    ensures CountInv(s')
  {
    forall r | r in s'.db.posts.rows
      ensures r.body.readCount == |Covering(s'.calls, Counted, r.body.gid, r.id, r.body.from)|
    {
      CoveringUpdate(s.calls, i, c, Counted, r.body.gid, r.id, r.body.from);
    }
  }

  lemma IncrementCounts(s: State, i: nat)
    requires i < |s.calls| && s.calls[i].stage.Upserted? && CountInv(s)
    ensures CountInv(AdvanceCall(s, i))
  {
    var s' := AdvanceCall(s, i);
    var c := s.calls[i];
    forall r | r in s'.db.posts.rows
      ensures r.body.readCount == |Covering(s'.calls, Counted, r.body.gid, r.id, r.body.from)|
    {
      var n :| 0 <= n < |s'.db.posts.rows| && s'.db.posts.rows[n] == r;
      var q := s.db.posts.rows[n];
      assert q in s.db.posts.rows;
      CoveringUpdate(s.calls, i, s'.calls[i], Counted, q.body.gid, q.id, q.body.from);
    }
  }

  lemma AdvanceCounts(s: State, i: nat)
    requires i < |s.calls| && CountInv(s)
    ensures CountInv(AdvanceCall(s, i))
  {
    if s.calls[i].stage.Upserted? {
      IncrementCounts(s, i);
    } else {
      QuietMove(s, AdvanceCall(s, i), i, AdvanceCall(s, i).calls[i]);
    }
  }

  /** Calls that passed the cursor keep their viewer, group and range for ever. */
  ghost predicate RangesKept(before: seq<Call>, after: seq<Call>) {
    && |before| <= |after|
    && (forall i :: 0 <= i < |before| ==>
          && after[i].viewer == before[i].viewer && after[i].gid == before[i].gid
          && (Passed(before[i]) ==>
                && Passed(after[i])
                && after[i].stage.lo == before[i].stage.lo && after[i].stage.latest == before[i].stage.latest))
  }

  lemma CoverKept(s: State, s': State)
    requires CoverInv(s) && RangesKept(s.calls, s'.calls) && s'.reach == s.reach
    ensures CoverInv(s')
  {
    forall v, g, x: nat | 0 < x <= Reach(s', v, g) ensures HasCover(s'.calls, v, g, x) {
      assert HasCover(s.calls, v, g, x);
      var i :| 0 <= i < |s.calls| && s.calls[i].viewer == v && s.calls[i].gid == g && Spans(s.calls[i], x);
      assert Spans(s'.calls[i], x);
    }
  }

  lemma AdvanceRanges(s: State, i: nat)
    requires i < |s.calls|
    ensures RangesKept(s.calls, AdvanceCall(s, i).calls)
    ensures AdvanceCall(s, i).calls[i].stage.Upserted? ==> s.calls[i].stage.SawCursor?
    ensures !AdvanceCall(s, i).calls[i].stage.Upserted? ==> AdvanceCall(s, i).reach == s.reach
    ensures !AdvanceCall(s, i).calls[i].stage.Upserted? ==> LiveInv(s) ==> LiveInv(AdvanceCall(s, i))
  {
    hide MaxId, FetchDelta;
    if s.calls[i].stage.Upserted? {
      assert AdvanceCall(s, i).db.cursors == s.db.cursors;
    }
  }

  lemma UpsertCovers(s: State, i: nat)
    requires i < |s.calls| && s.calls[i].stage.SawCursor? && AdvanceCall(s, i).calls[i].stage.Upserted?
    requires Inv(s)
    ensures CoverInv(AdvanceCall(s, i))
  {
    var s' := AdvanceCall(s, i);
    var c := s.calls[i];
    forall v, g, x: nat | 0 < x <= Reach(s', v, g) ensures HasCover(s'.calls, v, g, x) {
      if x <= Reach(s, v, g) {
        assert HasCover(s.calls, v, g, x);
        var j :| 0 <= j < |s.calls| && s.calls[j].viewer == v && s.calls[j].gid == g && Spans(s.calls[j], x);
        assert j != i;
        assert Spans(s'.calls[j], x);
      } else {
        assert Cursor(s.db, v, g) == Reach(s, v, g);
        assert Spans(s'.calls[i], x);
      }
    }
  }

  lemma LatestBelowNext(t: Tables, gid: Gid)
    requires Valid(t)
    ensures MaxId(t, gid).Some? ==> MaxId(t, gid).value < t.posts.next
  {
    var rows := Filter(t.posts.rows, InGroup(gid));
    if rows != [] {
      assert rows[|rows| - 1] in t.posts.rows;
    }
  }

  /** GREATEST on a live cursor: history and stored cursor move to the same value. */
  lemma UpsertLive(s: State, i: nat)
    requires i < |s.calls| && s.calls[i].stage.SawCursor? && AdvanceCall(s, i).calls[i].stage.Upserted?
    requires LiveInv(s)
    ensures LiveInv(AdvanceCall(s, i))
    ensures Reach(AdvanceCall(s, i), s.calls[i].viewer, s.calls[i].gid)
            == Max(Reach(s, s.calls[i].viewer, s.calls[i].gid), s.calls[i].stage.latest)
  {
  }

  lemma UpsertIds(s: State, i: nat)
    requires i < |s.calls| && s.calls[i].stage.SawCursor? && AdvanceCall(s, i).calls[i].stage.Upserted?
    requires IdsInv(s) && LiveInv(s)
    requires s.db.users.Keys <= s.usedUids && s.db.groups.Keys <= s.usedGids
    ensures IdsInv(AdvanceCall(s, i))
  {
    var s' := AdvanceCall(s, i);
    UpsertLive(s, i);
    assert CallInv(s, s.calls[i]);
    forall j | 0 <= j < |s'.calls| ensures CallInv(s', s'.calls[j]) {
      assert CallInv(s, s.calls[j]);
    }
  }

  lemma AdvanceDb(s: State, i: nat)
    requires i < |s.calls| && DbInv(s)
    ensures DbInv(AdvanceCall(s, i))
    ensures AdvanceCall(s, i).db.posts.next == s.db.posts.next
  {
    hide Valid;
    var c := s.calls[i];
    if c.stage.SawCursor? {
      ExecValid(s.db, UpsertCursor(c.viewer, c.gid, c.stage.latest));
    } else if c.stage.Upserted? {
      ExecValid(s.db, IncrementReads(c.gid, c.stage.lo, c.stage.latest, c.viewer));
    }
  }

  /** Statements other than the upsert: what the call learns stays below the id sequence and the cursor. */
  lemma AdvanceIds(s: State, i: nat)
    requires i < |s.calls| && IdsInv(s)
    requires !AdvanceCall(s, i).calls[i].stage.Upserted?
    requires MaxId(s.db, s.calls[i].gid).Some? ==> MaxId(s.db, s.calls[i].gid).value < s.db.posts.next
    requires Cursor(s.db, s.calls[i].viewer, s.calls[i].gid) <= Reach(s, s.calls[i].viewer, s.calls[i].gid)
    ensures IdsInv(AdvanceCall(s, i))
  {
    var s' := AdvanceCall(s, i);
    forall j | 0 <= j < |s'.calls| ensures CallInv(s', s'.calls[j]) {
      assert CallInv(s, s.calls[j]);
    }
  }

  lemma CursorBelowReach(s: State, u: Uid, g: Gid)
    requires DbInv(s) && LiveInv(s)
    ensures Cursor(s.db, u, g) <= Reach(s, u, g)
  {
  }

  lemma AdvanceInv(s: State, i: nat)
    requires i < |s.calls| && Inv(s)
    ensures Inv(AdvanceCall(s, i))
  {
    hide Valid, NextStatement, CallInv, CreditOf, RangesKept, IdsInv, LiveInv, CoverInv, CountInv, MaxId;
    var s' := AdvanceCall(s, i);
    AdvanceDb(s, i);
    AdvanceCounts(s, i);
    AdvanceRanges(s, i);
    if s'.calls[i].stage.Upserted? {
      UpsertLive(s, i);
      UpsertIds(s, i);
      UpsertCovers(s, i);
    } else {
      LatestBelowNext(s.db, s.calls[i].gid);
      CursorBelowReach(s, s.calls[i].viewer, s.calls[i].gid);
      AdvanceIds(s, i);
      CoverKept(s, s');
    }
  }

  // ----- statements of other handlers -----

  /** No other statement changes a read_count: rows stay, go, or arrive with count 0 and a new id. */
  lemma OtherPosts(t: Tables, stmt: Stmt, r: Row<Post>)
    requires !stmt.UpsertCursor? && !stmt.IncrementReads?
    requires r in Exec(t, stmt).posts.rows
    ensures r in t.posts.rows || (r.body.readCount == 0 && r.id == t.posts.next)
  {
  }

  /** No other statement moves the cursor of a user and group that survive it. */
  lemma OtherCursor(t: Tables, stmt: Stmt, u: Uid, g: Gid)
    requires !stmt.UpsertCursor?
    requires u in Exec(t, stmt).users && g in Exec(t, stmt).groups
    ensures Cursor(Exec(t, stmt), u, g) == Cursor(t, u, g)
    ensures u in t.users || (stmt.InsertUser? && stmt.uid == u)
    ensures g in t.groups || (stmt.InsertGroup? && stmt.gid == g)
  {
  }

  lemma NoCursorRow(t: Tables, u: Uid, g: Gid)
    requires ReferencesHold(t) && (u !in t.users || g !in t.groups)
    ensures Cursor(t, u, g) == 0
  {
  }

  lemma OtherNext(t: Tables, stmt: Stmt)
    ensures t.posts.next <= Exec(t, stmt).posts.next
  {
  }

  lemma OtherLive(s: State, stmt: Stmt)
    requires IdsInv(s) && LiveInv(s) && Allowed(s, stmt) && ReferencesHold(s.db)
    ensures LiveInv(RunOther(s, stmt))
  {
    hide Exec, CallInv, Cursor;
    var s' := RunOther(s, stmt);
    forall u, g | u in s'.db.users && g in s'.db.groups ensures Cursor(s'.db, u, g) == Reach(s', u, g) {
      OtherCursor(s.db, stmt, u, g);
      if u !in s.db.users || g !in s.db.groups {
        NoCursorRow(s.db, u, g);
      }
    }
  }

  lemma OtherUsed(s: State, stmt: Stmt)
    requires DbInv(s) && Allowed(s, stmt)
    ensures DbInv(RunOther(s, stmt))
  {
    hide Valid;
    ExecValid(s.db, stmt);
  }

  lemma OtherCounts(s: State, stmt: Stmt)
    requires IdsInv(s) && CountInv(s) && Allowed(s, stmt)
    ensures CountInv(RunOther(s, stmt))
  {
    hide Exec;
    var s' := RunOther(s, stmt);
    forall r | r in s'.db.posts.rows
      ensures r.body.readCount == |Covering(s'.calls, Counted, r.body.gid, r.id, r.body.from)|
    {
      OtherPosts(s.db, stmt, r);
      if r !in s.db.posts.rows {
        forall i | 0 <= i < |s.calls| ensures !Spans(s.calls[i], r.id) {
          assert CallInv(s, s.calls[i]);
        }
        assert Covering(s'.calls, Counted, r.body.gid, r.id, r.body.from) == {};
      }
    }
  }

  lemma OtherInv(s: State, stmt: Stmt)
    requires Inv(s) && Allowed(s, stmt)
    ensures Inv(RunOther(s, stmt))
  {
    hide KeysHold, ReferencesHold, Exec, LiveInv, CountInv;
    var s' := RunOther(s, stmt);
    OtherUsed(s, stmt);
    OtherNext(s.db, stmt);
    OtherLive(s, stmt);
    OtherCounts(s, stmt);
    forall j | 0 <= j < |s'.calls| ensures CallInv(s', s'.calls[j]) {
      assert CallInv(s, s.calls[j]);
    }
    CoverKept(s, s');
  }

  lemma FailInv(s: State, i: nat)
    requires Inv(s) && i < |s.calls|
    ensures Inv(Step(s, Fail(i)))
  {
    hide Valid;
    var s' := Step(s, Fail(i));
    QuietMove(s, s', i, s'.calls[i]);
    CoverKept(s, s');
    forall j | 0 <= j < |s'.calls| ensures CallInv(s', s'.calls[j]) {
      assert CallInv(s, s.calls[j]);
    }
  }

  lemma BeginInv(s: State, v: Uid, g: Gid)
    requires Inv(s)
    ensures Inv(Step(s, Begin(v, g)))
  {
    hide Valid;
    var s' := Step(s, Begin(v, g));
    CoverKept(s, s');
    forall r | r in s'.db.posts.rows
      ensures r.body.readCount == |Covering(s'.calls, Counted, r.body.gid, r.id, r.body.from)|
    {
      assert Covering(s'.calls, Counted, r.body.gid, r.id, r.body.from)
          == Covering(s.calls, Counted, r.body.gid, r.id, r.body.from);
    }
    forall j | 0 <= j < |s'.calls| ensures CallInv(s', s'.calls[j]) {
      if j < |s.calls| {
        assert CallInv(s, s.calls[j]);
      }
    }
  }

  /** Every step of every interleaving keeps the invariant. */
  lemma StepInv(s: State, e: Event)
    requires Inv(s)
    ensures Inv(Step(s, e))
  {
    hide Inv, AdvanceCall, RunOther, AfterFailure;
    match e
    case Begin(v, g) => BeginInv(s, v, g);
    case Advance(i) => if i < |s.calls| { AdvanceInv(s, i); }
    case Fail(i) => if i < |s.calls| { FailInv(s, i); }
    case Other(stmt) => if Allowed(s, stmt) { OtherInv(s, stmt); }
  }

  lemma {:induction false} RunInv(events: seq<Event>)
    ensures Inv(Run(INITIAL, events))
  {
    hide Inv, Step;
    if events == [] {
      InitialInv();
    } else {
      RunInv(events[..|events| - 1]);
      StepInv(Run(INITIAL, events[..|events| - 1]), events[|events| - 1]);
    }
  }

  // ----- from credits to readers -----

  /** All calls past their upsert that cover a message, whatever became of their increment. */
  function AllCovering(calls: seq<Call>, gid: Gid, id: nat, from: Uid): set<nat> {
    set i | 0 <= i < |calls| && Covers(calls[i], gid, id, from)
  }

  lemma CreditsAddUp(calls: seq<Call>, gid: Gid, id: nat, from: Uid)
    ensures |AllCovering(calls, gid, id, from)|
            == |Covering(calls, Counted, gid, id, from)|
               + |Covering(calls, Pending, gid, id, from)|
               + |Covering(calls, Lost, gid, id, from)|
  {
    var c := Covering(calls, Counted, gid, id, from);
    var p := Covering(calls, Pending, gid, id, from);
    var l := Covering(calls, Lost, gid, id, from);
    assert AllCovering(calls, gid, id, from) == c + p + l;
    assert c !! p && (c + p) !! l;
  }

  function Viewers(calls: seq<Call>, s: set<nat>): set<Uid>
    requires forall i :: i in s ==> i < |calls|
  {
    set i | i in s :: calls[i].viewer
  }

  lemma {:induction false} ViewersBound(calls: seq<Call>, s: set<nat>)
    requires forall i :: i in s ==> i < |calls|
    ensures |Viewers(calls, s)| <= |s|
    ensures |Viewers(calls, s)| == |s| <==>
              forall i, j :: i in s && j in s && i != j ==> calls[i].viewer != calls[j].viewer
    decreases s
  {
    if s != {} {
      var i :| i in s;
      var rest := s - {i};
      ViewersBound(calls, rest);
      assert Viewers(calls, s) == Viewers(calls, rest) + {calls[i].viewer};
      if calls[i].viewer in Viewers(calls, rest) {
        var j :| j in rest && calls[j].viewer == calls[i].viewer;
      }
    }
  }

  /** The users whose cursor reached a message are exactly the viewers of the calls covering it. */
  lemma ReachedAreViewers(s: State, gid: Gid, id: nat, from: Uid)
    requires IdsInv(s) && CoverInv(s) && 0 < id
    ensures Viewers(s.calls, AllCovering(s.calls, gid, id, from)) == Reached(s, gid, id, from)
  {
    var all := AllCovering(s.calls, gid, id, from);
    forall v | v in Viewers(s.calls, all) ensures v in Reached(s, gid, id, from) {
      var i :| i in all && s.calls[i].viewer == v;
      assert CallInv(s, s.calls[i]);
      assert (v, gid) in s.reach;
    }
    forall v | v in Reached(s, gid, id, from) ensures v in Viewers(s.calls, all) {
      assert 0 < id <= Reach(s, v, gid);
      assert HasCover(s.calls, v, gid, id);
      var i :| 0 <= i < |s.calls| && s.calls[i].viewer == v && s.calls[i].gid == gid && Spans(s.calls[i], id);
      assert i in all;
    }
  }

  // ----- one call in flight per viewer and group -----

  predicate InFlight(c: Call) {
    c.stage.Begun? || c.stage.SawLatest? || c.stage.SawCursor? || c.stage.Upserted? || c.stage.Incremented?
  }

  predicate NoneInFlight(s: State, v: Uid, g: Gid) {
    forall i | 0 <= i < |s.calls| :: s.calls[i].viewer == v && s.calls[i].gid == g ==> !InFlight(s.calls[i])
  }

  /** No viewer begins a call for a group while an earlier one of theirs is unfinished. */
  predicate StrictRun(events: seq<Event>) {
    events == [] ||
    (var before, e := events[..|events| - 1], events[|events| - 1];
     StrictRun(before) && (e.Begin? ==> NoneInFlight(Run(INITIAL, before), e.viewer, e.gid)))
  }

  predicate SameKey(c: Call, d: Call) {
    c.viewer == d.viewer && c.gid == d.gid
  }

  ghost predicate OnePerKey(s: State) {
    forall i, j :: 0 <= i < j < |s.calls| && SameKey(s.calls[i], s.calls[j]) ==>
      !InFlight(s.calls[i]) || !InFlight(s.calls[j])
  }

  /** A cursor value read by an unfinished call is still current when the upsert can succeed. */
  ghost predicate FreshReads(s: State) {
    forall i :: 0 <= i < |s.calls| && s.calls[i].stage.SawCursor? ==>
      s.calls[i].viewer in s.db.users && s.calls[i].gid in s.db.groups ==>
        s.calls[i].stage.lo == Reach(s, s.calls[i].viewer, s.calls[i].gid)
  }

  predicate Apart(c: Call, d: Call) {
    Passed(c) && Passed(d) && SameKey(c, d) ==> c.stage.latest <= d.stage.lo || d.stage.latest <= c.stage.lo
  }

  /** The ranges of one viewer's calls in one group do not overlap. */
  ghost predicate RangesApart(calls: seq<Call>) {
    forall i, j :: 0 <= i < |calls| && 0 <= j < |calls| && i != j ==> Apart(calls[i], calls[j])
  }

  ghost predicate StrictInv(s: State) {
    OnePerKey(s) && FreshReads(s) && RangesApart(s.calls)
  }

  lemma AdvanceStrict(s: State, i: nat)
    requires i < |s.calls| && IdsInv(s) && LiveInv(s) && StrictInv(s)
    ensures StrictInv(AdvanceCall(s, i))
  {
    hide MaxId, FetchDelta;
    var s' := AdvanceCall(s, i);
    assert CallInv(s, s.calls[i]);
    if s'.calls[i].stage.Upserted? {
      forall j | 0 <= j < |s.calls| && j != i ensures Apart(s'.calls[j], s'.calls[i]) && Apart(s'.calls[i], s'.calls[j]) {
        assert CallInv(s, s.calls[j]);
      }
    }
  }

  lemma OtherStrict(s: State, stmt: Stmt)
    requires Inv(s) && StrictInv(s) && Allowed(s, stmt)
    ensures StrictInv(RunOther(s, stmt))
  {
    hide Valid, Exec, LiveInv, CoverInv, CountInv;
    var s' := RunOther(s, stmt);
    forall i | 0 <= i < |s.calls| && s.calls[i].stage.SawCursor?
               && s.calls[i].viewer in s'.db.users && s.calls[i].gid in s'.db.groups
      ensures s.calls[i].stage.lo == Reach(s, s.calls[i].viewer, s.calls[i].gid)
    {
      OtherCursor(s.db, stmt, s.calls[i].viewer, s.calls[i].gid);
      assert CallInv(s, s.calls[i]);
    }
  }

  lemma StepStrict(s: State, e: Event)
    requires Inv(s) && StrictInv(s)
    requires e.Begin? ==> NoneInFlight(s, e.viewer, e.gid)
    ensures StrictInv(Step(s, e))
  {
    hide Valid, LiveInv, CoverInv, CountInv, AdvanceCall, RunOther;
    match e
    case Begin(v, g) =>
    case Advance(i) => if i < |s.calls| { AdvanceStrict(s, i); }
    case Fail(i) =>
    case Other(stmt) => if Allowed(s, stmt) { OtherStrict(s, stmt); }
  }

  lemma {:induction false} RunStrict(events: seq<Event>)
    requires StrictRun(events)
    ensures StrictInv(Run(INITIAL, events))
  {
    hide Inv, Step;
    if events != [] {
      var before := events[..|events| - 1];
      RunStrict(before);
      RunInv(before);
      StepStrict(Run(INITIAL, before), events[|events| - 1]);
    }
  }

  lemma PositiveIds(t: Tables, r: Row<Post>)
    requires Valid(t) && r in t.posts.rows
    ensures 0 < r.id < t.posts.next
  {
  }

  /** Two calls of one viewer cover the message. */
  ghost predicate Overlap(calls: seq<Call>, gid: Gid, id: nat, from: Uid) {
    var covering := AllCovering(calls, gid, id, from);
    exists i, j :: i in covering && j in covering && i != j && calls[i].viewer == calls[j].viewer
  }

  /**
    In any interleaving at all, the credits of a message equal its readers if and only if no
    viewer has two calls covering it.
   */
  lemma CreditsExactIffCallsApart(events: seq<Event>, r: Row<Post>)
    requires r in Run(INITIAL, events).db.posts.rows
    ensures var s := Run(INITIAL, events);
            r.body.readCount
            + |Covering(s.calls, Pending, r.body.gid, r.id, r.body.from)|
            + |Covering(s.calls, Lost, r.body.gid, r.id, r.body.from)|
            == |Reached(s, r.body.gid, r.id, r.body.from)|
            <==> !Overlap(s.calls, r.body.gid, r.id, r.body.from)
  {
    hide Run, Valid, LiveInv, Covering, Reached;
    var s := Run(INITIAL, events);
    RunInv(events);
    PositiveIds(s.db, r);
    CreditsAddUp(s.calls, r.body.gid, r.id, r.body.from);
    ReachedAreViewers(s, r.body.gid, r.id, r.body.from);
    ViewersBound(s.calls, AllCovering(s.calls, r.body.gid, r.id, r.body.from));
  }

  // ----- main results -----

  /**
    One call in flight per viewer and group. At every moment of every interleaving,
    including failures: the stored count, plus cursors moved but not yet counted, plus
    increments that failed, is the number of other users whose cursor ever reached the message.
   */
  lemma CountsAgreeWithCursors(events: seq<Event>, r: Row<Post>)
    requires StrictRun(events)
    requires r in Run(INITIAL, events).db.posts.rows
    ensures var s := Run(INITIAL, events);
            r.body.readCount
            + |Covering(s.calls, Pending, r.body.gid, r.id, r.body.from)|
            + |Covering(s.calls, Lost, r.body.gid, r.id, r.body.from)|
            == |Reached(s, r.body.gid, r.id, r.body.from)|
  {
    hide Run, Valid, LiveInv;
    var s := Run(INITIAL, events);
    RunInv(events);
    RunStrict(events);
    var all := AllCovering(s.calls, r.body.gid, r.id, r.body.from);
    forall i, j | i in all && j in all && i != j ensures s.calls[i].viewer != s.calls[j].viewer {
      assert Apart(s.calls[i], s.calls[j]);
    }
    CreditsExactIffCallsApart(events, r);
  }

  /**
    In a quiet moment the stored count is exact if and only if no failed increment
    covered the message.
   */
  lemma ExactWhenQuiet(events: seq<Event>, r: Row<Post>)
    requires StrictRun(events)
    requires r in Run(INITIAL, events).db.posts.rows
    requires var s := Run(INITIAL, events);
             forall i :: 0 <= i < |s.calls| ==> !InFlight(s.calls[i])
    ensures var s := Run(INITIAL, events);
            r.body.readCount == |Reached(s, r.body.gid, r.id, r.body.from)|
            <==> !exists c :: c in s.calls && c.stage.FailedIncrement? && Covers(c, r.body.gid, r.id, r.body.from)
  {
    hide Run, Reached;
    var s := Run(INITIAL, events);
    CountsAgreeWithCursors(events, r);
    var lost := Covering(s.calls, Lost, r.body.gid, r.id, r.body.from);
    assert Covering(s.calls, Pending, r.body.gid, r.id, r.body.from) == {};
    if c :| c in s.calls && c.stage.FailedIncrement? && Covers(c, r.body.gid, r.id, r.body.from) {
      var i :| 0 <= i < |s.calls| && s.calls[i] == c;
      assert i in lost;
    } else {
      assert lost == {};
    }
  }

  /**
    Without any restriction, overlapping calls of one viewer included, the count is never
    too low beyond what is still pending or was lost; in particular not once every call
    has finished and no increment failed.
   */
  lemma NeverUndercounts(events: seq<Event>, r: Row<Post>)
    requires r in Run(INITIAL, events).db.posts.rows
    ensures var s := Run(INITIAL, events);
            |Reached(s, r.body.gid, r.id, r.body.from)|
            <= r.body.readCount
               + |Covering(s.calls, Pending, r.body.gid, r.id, r.body.from)|
               + |Covering(s.calls, Lost, r.body.gid, r.id, r.body.from)|
    ensures var s := Run(INITIAL, events);
            (forall i :: 0 <= i < |s.calls| ==> !InFlight(s.calls[i]) && !s.calls[i].stage.FailedIncrement?) ==>
              |Reached(s, r.body.gid, r.id, r.body.from)| <= r.body.readCount
  {
    hide Run, Valid, LiveInv;
    var s := Run(INITIAL, events);
    RunInv(events);
    PositiveIds(s.db, r);
    CreditsAddUp(s.calls, r.body.gid, r.id, r.body.from);
    ReachedAreViewers(s, r.body.gid, r.id, r.body.from);
    ViewersBound(s.calls, AllCovering(s.calls, r.body.gid, r.id, r.body.from));
    if forall i :: 0 <= i < |s.calls| ==> !InFlight(s.calls[i]) && !s.calls[i].stage.FailedIncrement? {
      assert Covering(s.calls, Pending, r.body.gid, r.id, r.body.from) == {};
      assert Covering(s.calls, Lost, r.body.gid, r.id, r.body.from) == {};
    }
  }

  // ----- overlapping calls -----

  /** The step is an upsert that succeeds, by a call whose range holds the message. */
  predicate StartsCovering(s: State, e: Event, gid: Gid, id: nat, from: Uid) {
    e.Advance? && e.i < |s.calls|
    && var c := s.calls[e.i];
    && c.stage.SawCursor? && c.gid == gid && c.viewer != from
    && Accepts(s.db, UpsertCursor(c.viewer, c.gid, c.stage.latest))
    && c.stage.lo < id <= c.stage.latest
  }

  /** Such an upsert finds the stored cursor at or past the message, although the cursor the call had read was not. */
  predicate PassesAgain(s: State, e: Event, gid: Gid, id: nat, from: Uid) {
    StartsCovering(s, e, gid, id, from) && id <= Cursor(s.db, s.calls[e.i].viewer, gid)
  }

  predicate PassedAgain(events: seq<Event>, gid: Gid, id: nat, from: Uid) {
    events != []
    && var before := events[..|events| - 1];
    (PassedAgain(before, gid, id, from) || PassesAgain(Run(INITIAL, before), events[|events| - 1], gid, id, from))
  }

  /** Only a successful upsert makes a call cover anything, and no call ever stops covering. */
  lemma CoveringStep(s: State, e: Event, gid: Gid, id: nat, from: Uid)
    ensures AllCovering(Step(s, e).calls, gid, id, from)
            == AllCovering(s.calls, gid, id, from) + if StartsCovering(s, e, gid, id, from) then {e.i} else {}
    ensures |s.calls| <= |Step(s, e).calls|
    ensures forall k :: 0 <= k < |s.calls| ==> Step(s, e).calls[k].viewer == s.calls[k].viewer
    ensures StartsCovering(s, e, gid, id, from) ==> e.i !in AllCovering(s.calls, gid, id, from)
  {
    hide MaxId, FetchDelta, Exec, Effect;
  }

  /** One more covering call overlaps with an earlier one exactly when its viewer had covered the message before. */
  lemma OneMoreOverlap(calls: seq<Call>, calls': seq<Call>, i: nat, gid: Gid, id: nat, from: Uid)
    requires i < |calls| <= |calls'|
    requires AllCovering(calls', gid, id, from) == AllCovering(calls, gid, id, from) + {i}
    requires i !in AllCovering(calls, gid, id, from)
    requires forall k :: 0 <= k < |calls| ==> calls'[k].viewer == calls[k].viewer
    ensures Overlap(calls', gid, id, from) <==>
              Overlap(calls, gid, id, from) || calls[i].viewer in Viewers(calls, AllCovering(calls, gid, id, from))
  {
    var before, after := AllCovering(calls, gid, id, from), AllCovering(calls', gid, id, from);
    assert forall k :: k in before ==> k in after && k < |calls|;
    if calls[i].viewer in Viewers(calls, before) {
      var j :| j in before && calls[j].viewer == calls[i].viewer;
      assert i in after && j in after;
    }
  }

  /** The cursor a call finds when it moves it tells whether its viewer had covered the message before. */
  lemma CursorTellsCover(s: State, e: Event, gid: Gid, id: nat, from: Uid)
    requires Inv(s) && 0 < id && StartsCovering(s, e, gid, id, from)
    ensures PassesAgain(s, e, gid, id, from)
            <==> s.calls[e.i].viewer in Viewers(s.calls, AllCovering(s.calls, gid, id, from))
  {
    hide Valid, CountInv;
    ReachedAreViewers(s, gid, id, from);
    var v := s.calls[e.i].viewer;
    assert Cursor(s.db, v, gid) == Reach(s, v, gid);
  }

  lemma OverlapStep(s: State, e: Event, gid: Gid, id: nat, from: Uid)
    requires Inv(s) && 0 < id
    ensures Overlap(Step(s, e).calls, gid, id, from) <==>
              Overlap(s.calls, gid, id, from) || PassesAgain(s, e, gid, id, from)
  {
    CoveringStep(s, e, gid, id, from);
    hide Step, Inv;
    if StartsCovering(s, e, gid, id, from) {
      CursorTellsCover(s, e, gid, id, from);
      OneMoreOverlap(s.calls, Step(s, e).calls, e.i, gid, id, from);
    }
  }

  lemma NoOverlapAtFirst(gid: Gid, id: nat, from: Uid)
    ensures !Overlap(INITIAL.calls, gid, id, from)
  {
  }

  lemma {:induction false} OverlapIffPassedAgain(events: seq<Event>, gid: Gid, id: nat, from: Uid)
    requires 0 < id
    ensures Overlap(Run(INITIAL, events).calls, gid, id, from) <==> PassedAgain(events, gid, id, from)
  {
    hide Step, Inv, PassesAgain, Overlap;
    if events == [] {
      NoOverlapAtFirst(gid, id, from);
    } else {
      var before := events[..|events| - 1];
      OverlapIffPassedAgain(before, gid, id, from);
      RunInv(before);
      OverlapStep(Run(INITIAL, before), events[|events| - 1], gid, id, from);
    }
  }

  lemma RunIds(events: seq<Event>, r: Row<Post>)
    requires r in Run(INITIAL, events).db.posts.rows
    ensures 0 < r.id
  {
    hide Run, KeysHold, ReferencesHold, LiveInv, CoverInv, CountInv, IdsInv;
    RunInv(events);
    PositiveIds(Run(INITIAL, events).db, r);
  }

  /**
    In any interleaving at all, overlapping calls of one viewer included: the credits of a
    message are exact if and only if no upsert ever moved a cursor that was already past the
    message on the strength of an older reading. With nothing pending and nothing lost, the
    stored count itself is.
   */
  lemma ExactIffNeverPassedAgain(events: seq<Event>, r: Row<Post>)
    requires r in Run(INITIAL, events).db.posts.rows
    ensures var s := Run(INITIAL, events);
            var pending := Covering(s.calls, Pending, r.body.gid, r.id, r.body.from);
            var lost := Covering(s.calls, Lost, r.body.gid, r.id, r.body.from);
            var readers := Reached(s, r.body.gid, r.id, r.body.from);
            && (r.body.readCount + |pending| + |lost| == |readers|
                <==> !PassedAgain(events, r.body.gid, r.id, r.body.from))
            && (pending == {} && lost == {} ==>
                  (r.body.readCount == |readers| <==> !PassedAgain(events, r.body.gid, r.id, r.body.from)))
  {
    hide Run, Covering, Reached, PassedAgain;
    RunIds(events, r);
    CreditsExactIffCallsApart(events, r);
    OverlapIffPassedAgain(events, r.body.gid, r.id, r.body.from);
  }

  /** For users that still exist, "ever reached" is what the stored cursor says today. */
  lemma ReachedIsStoredCursor(events: seq<Event>, r: Row<Post>, u: Uid)
    requires r in Run(INITIAL, events).db.posts.rows
    requires u in Run(INITIAL, events).db.users
    ensures var s := Run(INITIAL, events);
            u in Reached(s, r.body.gid, r.id, r.body.from)
            <==> u != r.body.from && r.id <= Cursor(s.db, u, r.body.gid)
  {
    hide Run, KeysHold, CoverInv, CountInv;
    var s := Run(INITIAL, events);
    RunInv(events);
    PositiveIds(s.db, r);
    assert Cursor(s.db, u, r.body.gid) == Reach(s, u, r.body.gid);
    if u != r.body.from && r.id <= Reach(s, u, r.body.gid) {
      assert (u, r.body.gid) in s.reach;
    }
  }

  // ----- the deviations happen -----

  /** User 1 has posted message 1 to group 9 and is its only member; user 2 reads. */
  function Sample(calls: seq<Call>, cursors: map<(Uid, Gid), nat>, count: nat): State {
    State(EMPTY_TABLES.(
            users := map[1 := "ann", 2 := "bob"],
            groups := map[9 := Group(1, "team")],
            members := {(9, 1)},
            posts := Table([Row(1, None, Post(9, 1, "hello", 1, count))], 2),
            cursors := cursors),
          calls, cursors, {1, 2}, {9})
  }

  /** Nobody leaves and no statement fails. */
  predicate Smooth(events: seq<Event>) {
    forall e | e in events :: !e.Fail? && (e.Other? ==> !e.stmt.DeleteMember?)
  }

  lemma RunOneMore(events: seq<Event>, e: Event)
    ensures Smooth(events) && Smooth([e]) ==> Smooth(events + [e])
    ensures Run(INITIAL, events + [e]) == Step(Run(INITIAL, events), e)
    ensures StrictRun(events) && (e.Begin? ==> NoneInFlight(Run(INITIAL, events), e.viewer, e.gid)) ==> StrictRun(events + [e])
  {
    assert (events + [e])[..|events|] == events;
  }

  /** Setting the sample up, one statement at a time. */
  function Seeding(n: nat): Stmt {
    if n == 0 then InsertUser(1, "ann")
    else if n == 1 then InsertUser(2, "bob")
    else if n == 2 then InsertGroup(9, Group(1, "team"))
    else if n == 3 then InsertMember(9, 1)
    else InsertPost(Post(9, 1, "hello", 1, 0), None)
  }

  function Seeded(n: nat): State {
    var t := Sample([], map[], 0);
    State(EMPTY_TABLES.(
            users := if n == 0 then map[] else if n == 1 then map[1 := "ann"] else t.db.users,
            groups := if n <= 2 then map[] else t.db.groups,
            members := if n <= 3 then {} else t.db.members,
            posts := if n <= 4 then Table([], 1) else t.db.posts),
          [], map[], if n == 0 then {} else if n == 1 then {1} else {1, 2}, if n <= 2 then {} else {9})
  }

  lemma SeedingStep(n: nat)
    requires n < 5
    ensures Step(Seeded(n), Other(Seeding(n))) == Seeded(n + 1)
  {
  }

  lemma {:induction false} SampleIsReachable(n: nat) returns (events: seq<Event>)
    requires n <= 5
    ensures Run(INITIAL, events) == Seeded(n) && StrictRun(events)
    ensures Smooth(events)
  {
    hide Step;
    if n == 0 {
      events := [];
    } else {
      var before := SampleIsReachable(n - 1);
      SeedingStep(n - 1);
      RunOneMore(before, Other(Seeding(n - 1)));
      events := before + [Other(Seeding(n - 1))];
      assert events[..|before|] == before;
    }
  }

  /** One more statement of a call of user 2 on the sample. */
  lemma MoveSample(events: seq<Event>, calls: seq<Call>, cursors: map<(Uid, Gid), nat>, count: nat, i: nat)
    returns (more: seq<Event>, calls': seq<Call>)
    requires Run(INITIAL, events) == Sample(calls, cursors, count)
    requires i < |calls| && calls[i].viewer == 2 && calls[i].gid == 9 && (cursors == map[] || cursors == map[(2, 9) := 1])
    ensures (StrictRun(events) ==> StrictRun(more)) && (Smooth(events) ==> Smooth(more))
    ensures more == events + [Advance(i)] && calls' == Step(Sample(calls, cursors, count), Advance(i)).calls
    ensures var c, lo := calls[i], Get(cursors, (2, 9), 0);
            match c.stage
            case Begun => Run(INITIAL, more) == Sample(calls', cursors, count) && calls' == calls[i := Call(2, 9, SawLatest(1))]
            case SawLatest(_) =>
              Run(INITIAL, more) == Sample(calls', cursors, count)
              && calls' == calls[i := Call(2, 9, SawCursor(c.stage.latest, lo))]
            case SawCursor(latest, lo) =>
              latest == 1 ==>
                Run(INITIAL, more) == Sample(calls', map[(2, 9) := 1], count) && calls' == calls[i := Call(2, 9, Upserted(1, lo))]
            case Upserted(latest, lo) =>
              latest == 1 && lo == 0 ==>
                Run(INITIAL, more) == Sample(calls', cursors, count + 1) && calls' == calls[i := Call(2, 9, Incremented(1, 0))]
            case Incremented(latest, lo) =>
              Run(INITIAL, more) == Sample(calls', cursors, count)
              && |calls'| == |calls| && (forall k :: 0 <= k < |calls| && k != i ==> calls'[k] == calls[k])
              && calls'[i].stage.Returned? && calls'[i].viewer == 2 && calls'[i].gid == 9
            case _ => true
  {
    hide FetchDelta;
    RunOneMore(events, Advance(i));
    more := events + [Advance(i)];
    calls' := Step(Sample(calls, cursors, count), Advance(i)).calls;
  }

  lemma BeginOnSample(events: seq<Event>, calls: seq<Call>, cursors: map<(Uid, Gid), nat>, count: nat)
    ensures Run(INITIAL, events) == Sample(calls, cursors, count) ==>
              Run(INITIAL, events + [Begin(2, 9)]) == Sample(calls + [Call(2, 9, Begun)], cursors, count)
              && (calls == [] && StrictRun(events) ==> StrictRun(events + [Begin(2, 9)]))
              && (Smooth(events) ==> Smooth(events + [Begin(2, 9)]))
  {
    RunOneMore(events, Begin(2, 9));
  }

  lemma SampleReaders(calls: seq<Call>, count: nat)
    ensures Reached(Sample(calls, map[(2, 9) := 1], count), 9, 1, 1) == {2}
  {
    var reach: map<(Uid, Gid), nat> := map[(2, 9) := 1];
    assert (2, 9) in reach && (2, 9).0 == 2;
  }

  /** Both calls have read the cursor before either moves it. */
  lemma BothReadEarly() returns (events: seq<Event>)
    ensures var call := Call(2, 9, SawCursor(1, 0)); Run(INITIAL, events) == Sample([call, call], map[], 0)
  {
    events := SampleIsReachable(5);
    var calls := [Call(2, 9, Begun), Call(2, 9, Begun)];
    BeginOnSample(events, [], map[], 0);
    BeginOnSample(events + [Begin(2, 9)], [Call(2, 9, Begun)], map[], 0);
    events := events + [Begin(2, 9)] + [Begin(2, 9)];
    hide Run, Sample, Step, StrictRun, Smooth;
    events, calls := MoveSample(events, calls, map[], 0, 0);
    events, calls := MoveSample(events, calls, map[], 0, 0);
    events, calls := MoveSample(events, calls, map[], 0, 1);
    events, calls := MoveSample(events, calls, map[], 0, 1);
  }

  lemma BothCounted() returns (events: seq<Event>)
    ensures var call := Call(2, 9, Incremented(1, 0)); Run(INITIAL, events) == Sample([call, call], map[(2, 9) := 1], 2)
  {
    events := BothReadEarly();
    var calls := [Call(2, 9, SawCursor(1, 0)), Call(2, 9, SawCursor(1, 0))];
    var moved := map[(2, 9) := 1];
    hide Run, Sample, Step, StrictRun, Smooth;
    events, calls := MoveSample(events, calls, map[], 0, 0);
    events, calls := MoveSample(events, calls, moved, 0, 1);
    events, calls := MoveSample(events, calls, moved, 0, 0);
    events, calls := MoveSample(events, calls, moved, 1, 1);
  }

  /** Two overlapping calls count their one viewer twice, with every call finished and none failed. */
  lemma OverlapCountsTwice() returns (events: seq<Event>)
    ensures exists calls: seq<Call> :: Run(INITIAL, events) == Sample(calls, map[(2, 9) := 1], 2)
              && (forall i :: 0 <= i < |calls| ==> calls[i].stage.Returned?)
              && Reached(Run(INITIAL, events), 9, 1, 1) == {2}
  {
    events := BothCounted();
    var calls := [Call(2, 9, Incremented(1, 0)), Call(2, 9, Incremented(1, 0))];
    var moved := map[(2, 9) := 1];
    hide Run, Sample, Step, StrictRun, Smooth;
    events, calls := MoveSample(events, calls, moved, 2, 0);
    events, calls := MoveSample(events, calls, moved, 2, 1);
    SampleReaders(calls, 2);
  }

  /** User 2 has moved the cursor and is about to be counted. */
  lemma CursorMoved() returns (events: seq<Event>)
    ensures StrictRun(events) && Smooth(events)
    ensures Run(INITIAL, events) == Sample([Call(2, 9, Upserted(1, 0))], map[(2, 9) := 1], 0)
  {
    events := SampleIsReachable(5);
    var calls := [Call(2, 9, Begun)];
    BeginOnSample(events, [], map[], 0);
    events := events + [Begin(2, 9)];
    hide Run, StrictRun, Smooth;
    events, calls := MoveSample(events, calls, map[], 0, 0);
    events, calls := MoveSample(events, calls, map[], 0, 0);
    events, calls := MoveSample(events, calls, map[], 0, 0);
  }

  /** One call whose increment fails leaves its viewer uncounted for good. */
  lemma FailureUndercounts() returns (events: seq<Event>)
    ensures StrictRun(events)
    ensures Run(INITIAL, events) == Sample([Call(2, 9, FailedIncrement(1, 0))], map[(2, 9) := 1], 0)
    ensures Reached(Run(INITIAL, events), 9, 1, 1) == {2}
  {
    var before := CursorMoved();
    SampleReaders([Call(2, 9, FailedIncrement(1, 0))], 0);
    hide Run, StrictRun;
    RunOneMore(before, Fail(0));
    events := before + [Fail(0)];
  }

  lemma SampleTotal(calls: seq<Call>, cursors: map<(Uid, Gid), nat>, count: nat)
    ensures Total(Sample(calls, cursors, count).db, 9) == 0
  {
    assert MemberSet(Sample(calls, cursors, count).db, 9) == {1};
  }

  /** The total is exceeded without any departure, failure or overlap: an outsider reads a group of one. */
  lemma OutsiderExceedsTotal() returns (events: seq<Event>)
    ensures StrictRun(events) && Smooth(events)
    ensures Run(INITIAL, events) == Sample([Call(2, 9, Incremented(1, 0))], map[(2, 9) := 1], 1)
    ensures Total(Run(INITIAL, events).db, 9) == 0
  {
    var before := CursorMoved();
    var moved, calls := map[(2, 9) := 1], [Call(2, 9, Upserted(1, 0))];
    hide Run, StrictRun, Smooth;
    events, calls := MoveSample(before, calls, moved, 0, 0);
    SampleTotal(calls, moved, 1);
  }

  // ----- a call without interference -----

  /** The tables after an uninterrupted call. */
  function MarkedRead(t: Tables, gid: Gid, viewer: Uid): Tables {
    match MaxId(t, gid)
    case None => t
    case Some(latest) =>
      if viewer !in t.users || gid !in t.groups then t
      else
        var lo := Cursor(t, viewer, gid);
        t.(cursors := t.cursors[(viewer, gid) := Max(lo, latest)],
           posts := t.posts.(rows := CountReads(t.posts.rows, gid, lo, latest, viewer)))
  }

  /** Its answer: every message it counted, with the new counts. */
  function MarkReadAnswer(t: Tables, gid: Gid, viewer: Uid): Result<seq<DeltaItem>> {
    match MaxId(t, gid)
    case None => Ok([])
    case Some(latest) =>
      if viewer !in t.users || gid !in t.groups then Err
      else Ok(FetchDelta(MarkedRead(t, gid, viewer), gid, Cursor(t, viewer, gid), latest, viewer))
  }

  /** Nothing counted, nothing to fetch: the early return gives the same answer as statement 5 would. */
  lemma {:induction false} NothingCounted(rows: seq<Row<Post>>, gid: Gid, lo: nat, hi: nat, viewer: Uid)
    ensures |Filter(CountReads(rows, gid, lo, hi, viewer), InDelta(gid, lo, hi, viewer))|
            == |Filter(rows, InDelta(gid, lo, hi, viewer))|
  {
    if rows != [] {
      var k := |rows| - 1;
      NothingCounted(rows[..k], gid, lo, hi, viewer);
      assert CountReads(rows, gid, lo, hi, viewer)[..k] == CountReads(rows[..k], gid, lo, hi, viewer);
    }
  }

  /** The upsert and the increment are the only two of the five that write. */
  lemma WritesOfMarkRead(t: Tables, gid: Gid, viewer: Uid, latest: nat)
    requires MaxId(t, gid) == Some(latest)
    ensures var upsert := UpsertCursor(viewer, gid, latest);
            var t3 := Exec(t, upsert);
            var lo := Cursor(t, viewer, gid);
            && t3.posts == t.posts
            && (if Accepts(t, upsert)
                then MarkedRead(t, gid, viewer) == Exec(t3, IncrementReads(gid, lo, latest, viewer))
                     && MarkReadAnswer(t, gid, viewer) == Ok(FetchDelta(MarkedRead(t, gid, viewer), gid, lo, latest, viewer))
                else MarkedRead(t, gid, viewer) == t3 && MarkReadAnswer(t, gid, viewer).Err?)
            && Exec(t3, IncrementReads(gid, lo, latest, viewer)).posts.rows
               == CountReads(t.posts.rows, gid, lo, latest, viewer)
  {
    hide MaxId, CountReads, FetchDelta;
  }

  /** The tables and the call after one more statement of that call. */
  function NextOf(p: (Tables, Call)): (Tables, Call) {
    var (t, stage) := NextStatement(p.0, p.1);
    (t, p.1.(stage := stage))
  }

  function FiveStatements(t: Tables, v: Uid, g: Gid): (Tables, Call) {
    NextOf(NextOf(NextOf(NextOf(NextOf((t, Call(v, g, Begun)))))))
  }

  /** Five statements back to back are the operation as a whole. */
  lemma FiveStatementsMarkRead(t: Tables, v: Uid, g: Gid)
    ensures FiveStatements(t, v, g).0 == MarkedRead(t, g, v)
    ensures var stage := FiveStatements(t, v, g).1.stage;
            match MarkReadAnswer(t, g, v)
            case Err => stage.FailedBeforeCursor?
            case Ok(delta) =>
              if MaxId(t, g).None? then stage.GroupEmpty? && delta == []
              else stage.Returned? && stage.delta == delta
  {
    hide MaxId, Filter, CountReads, InDelta, Total;
    if MaxId(t, g).Some? {
      var latest, lo := MaxId(t, g).value, Cursor(t, v, g);
      NothingCounted(t.posts.rows, g, lo, latest, v);
      var p2 := NextOf(NextOf((t, Call(v, g, Begun))));
      assert p2 == (t, Call(v, g, SawCursor(latest, lo)));
      var p3 := NextOf(p2);
      if v in t.users && g in t.groups {
        assert p3.0.posts == t.posts && p3.1.stage == Upserted(latest, lo);
        assert NextOf(p3).0 == MarkedRead(t, g, v);
      }
    }
  }

  lemma AdvanceIsNext(s: State, i: nat)
    requires i < |s.calls|
    ensures var s' := Step(s, Advance(i));
            |s'.calls| == |s.calls| && (s'.db, s'.calls[i]) == NextOf((s.db, s.calls[i]))
  {
  }

  /** In the protocol, a call that nothing interleaves with runs exactly those statements. */
  lemma UninterruptedCall(s: State, v: Uid, g: Gid)
    ensures var i := |s.calls|;
            var s1 := Step(s, Begin(v, g));
            var s6 := Step(Step(Step(Step(Step(s1, Advance(i)), Advance(i)), Advance(i)), Advance(i)), Advance(i));
            (s6.db, s6.calls[i]) == FiveStatements(s.db, v, g)
  {
    hide NextOf, AdvanceCall;
    var i := |s.calls|;
    var s1 := Step(s, Begin(v, g));
    AdvanceIsNext(s1, i);
    var s2 := Step(s1, Advance(i));
    AdvanceIsNext(s2, i);
    var s3 := Step(s2, Advance(i));
    AdvanceIsNext(s3, i);
    var s4 := Step(s3, Advance(i));
    AdvanceIsNext(s4, i);
    AdvanceIsNext(Step(s4, Advance(i)), i);
  }
}
