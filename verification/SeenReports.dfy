/**
  Private messages from persistence to "seen": the mark-and-report updates of
  mark_seen_from_peer and get_chat_history, and what reconnect synchronisation finds.
 */
module SeenReports {
  import opened Base
  import opened Schema

  /** The ids one UPDATE returned. */
  datatype Report = Report(peer: Uid, caller: Uid, ids: seq<nat>)

  datatype State = State(db: Tables, reports: seq<Report>)

  /** Mark: the UPDATE that mark_seen_from_peer and get_chat_history share. */
  datatype Event =
    | Mark(caller: Uid, peer: Uid)
    | Other(stmt: Stmt)

  /** Mark everything unseen from peer to caller and report the ids that were just marked. */
  function MarkAndReport(s: State, caller: Uid, peer: Uid): State {
    State(Exec(s.db, MarkSeen(peer, caller)),
          s.reports + [Report(peer, caller, UnseenIds(s.db.chats.rows, peer, caller))])
  }

  function Step(s: State, e: Event): State {
    match e
    case Mark(a, b) => MarkAndReport(s, a, b)
    case Other(stmt) => if stmt.MarkSeen? then s else s.(db := Exec(s.db, stmt))
  }

  function Run(s: State, events: seq<Event>): State {
    if events == [] then s else Step(Run(s, events[..|events| - 1]), events[|events| - 1])
  }

  ghost predicate ReportsMatch(s: State) {
    forall n, id :: 0 <= n < |s.reports| && id in s.reports[n].ids ==>
      && id < s.db.chats.next
      && (forall r :: r in s.db.chats.rows && r.id == id ==>
            r.body.seen && r.body.from == s.reports[n].peer && r.body.to == s.reports[n].caller)
  }

  ghost predicate SeenIsReported(s: State) {
    forall r :: r in s.db.chats.rows && r.body.seen ==> exists n :: 0 <= n < |s.reports| && r.id in s.reports[n].ids
  }

  ghost predicate ReportsDisjoint(s: State) {
    forall m, n, id ::
      0 <= m < |s.reports| && 0 <= n < |s.reports| && id in s.reports[m].ids && id in s.reports[n].ids ==> m == n
  }

  ghost predicate NoRepeats(s: State) {
    forall n, i, j :: 0 <= n < |s.reports| && 0 <= i < j < |s.reports[n].ids| ==> s.reports[n].ids[i] != s.reports[n].ids[j]
  }

  ghost predicate Inv(s: State) {
    ValidTable(s.db.chats) && ReportsMatch(s) && SeenIsReported(s) && ReportsDisjoint(s) && NoRepeats(s)
  }

  /** The same message, apart from its seen flag, which may only have been raised. */
  predicate Later(r: Row<Chat>, q: Row<Chat>) {
    q == r || q == r.(body := r.body.(seen := true))
  }

  ghost predicate UnseenIdsAre(rows: seq<Row<Chat>>, from: Uid, to: Uid, ids: seq<nat>) {
    && (forall id :: id in ids <==>
          exists r :: r in rows && r.id == id && r.body.from == from && r.body.to == to && !r.body.seen)
    && (forall i, j :: 0 <= i < j < |ids| ==> ids[i] < ids[j])
  }

  lemma UnseenIdsExact(t: Table<Chat>, from: Uid, to: Uid)
    requires ValidTable(t)
    ensures UnseenIdsAre(t.rows, from, to, UnseenIds(t.rows, from, to))
  {
    var hits := Filter(t.rows, UnseenFrom(from, to));
    FilterAscending(t.rows, UnseenFrom(from, to));
    var ids := UnseenIds(t.rows, from, to);
    forall id
      ensures id in ids <==> exists r :: r in t.rows && r.id == id && r.body.from == from && r.body.to == to && !r.body.seen
    {
      if id in ids {
        var n :| 0 <= n < |ids| && ids[n] == id;
        assert hits[n] in hits;
      }
      if r :| r in t.rows && r.id == id && r.body.from == from && r.body.to == to && !r.body.seen {
        assert r in hits;
        var n :| 0 <= n < |hits| && hits[n] == r;
        assert ids[n] == id;
      }
    }
  }

  /** The UPDATE row by row: every message from that peer to that user is seen afterwards, and no other row changes. */
  lemma MarkSeenExact(t: Tables, from: Uid, to: Uid)
    ensures var rows, out := t.chats.rows, Exec(t, MarkSeen(from, to)).chats.rows;
            && |out| == |rows|
            && (forall i :: 0 <= i < |rows| ==>
                  out[i] == if rows[i].body.from == from && rows[i].body.to == to
                            then rows[i].(body := rows[i].body.(seen := true)) else rows[i])
  {
  }

  /** The rows after the UPDATE: each old row, marked exactly when it was unseen from that peer. */
  lemma SeeRowsExact(rows: seq<Row<Chat>>, from: Uid, to: Uid)
    ensures forall r :: r in rows ==> SeeRow(r, from, to) in SeeRows(rows, from, to)
    ensures forall q :: q in SeeRows(rows, from, to) ==> exists r :: r in rows && q == SeeRow(r, from, to)
  {
    var out := SeeRows(rows, from, to);
    forall r | r in rows ensures SeeRow(r, from, to) in out {
      var n :| 0 <= n < |rows| && rows[n] == r;
      assert out[n] == SeeRow(r, from, to);
    }
    forall q | q in out ensures exists r :: r in rows && q == SeeRow(r, from, to) {
      var n :| 0 <= n < |out| && out[n] == q;
      assert rows[n] in rows;
    }
  }

  lemma MarkMatches(s: State, a: Uid, b: Uid)
    requires ValidTable(s.db.chats) && ReportsMatch(s)
    ensures ReportsMatch(MarkAndReport(s, a, b))
  {
    hide UnseenIds, SeeRows;
    var s' := MarkAndReport(s, a, b);
    UnseenIdsExact(s.db.chats, b, a);
    SeeRowsExact(s.db.chats.rows, b, a);
    forall n, id, q | 0 <= n < |s'.reports| && id in s'.reports[n].ids && q in s'.db.chats.rows && q.id == id
      ensures q.body.seen && q.body.from == s'.reports[n].peer && q.body.to == s'.reports[n].caller
    {
      var r :| r in s.db.chats.rows && q == SeeRow(r, b, a);
      if n == |s.reports| {
        var m :| m in s.db.chats.rows && m.id == id && UnseenFrom(b, a)(m);
        SameIdSameRow(s.db.chats, r, m);
      }
    }
  }

  lemma MarkReported(s: State, a: Uid, b: Uid)
    requires ValidTable(s.db.chats) && SeenIsReported(s)
    ensures SeenIsReported(MarkAndReport(s, a, b))
  {
    hide UnseenIds, SeeRows;
    var s' := MarkAndReport(s, a, b);
    UnseenIdsExact(s.db.chats, b, a);
    SeeRowsExact(s.db.chats.rows, b, a);
    forall q | q in s'.db.chats.rows && q.body.seen
      ensures exists n :: 0 <= n < |s'.reports| && q.id in s'.reports[n].ids
    {
      var r :| r in s.db.chats.rows && q == SeeRow(r, b, a);
      if r.body.seen {
        var n :| 0 <= n < |s.reports| && r.id in s.reports[n].ids;
        assert q.id in s'.reports[n].ids;
      } else {
        assert q.id in s'.reports[|s.reports|].ids;
      }
    }
  }

  lemma MarkDisjoint(s: State, a: Uid, b: Uid)
    requires ValidTable(s.db.chats) && ReportsMatch(s) && ReportsDisjoint(s) && NoRepeats(s)
    ensures ReportsDisjoint(MarkAndReport(s, a, b)) && NoRepeats(MarkAndReport(s, a, b))
  {
    hide UnseenIds, SeeRows;
    UnseenIdsExact(s.db.chats, b, a);
  }

  lemma MarkInv(s: State, a: Uid, b: Uid)
    requires Inv(s)
    ensures Inv(MarkAndReport(s, a, b))
  {
    hide ReportsMatch, SeenIsReported, ReportsDisjoint, NoRepeats;
    MarkMatches(s, a, b);
    MarkReported(s, a, b);
    MarkDisjoint(s, a, b);
    ExecChatKeys(s.db, MarkSeen(b, a));
  }

  lemma OtherChats(t: Tables, stmt: Stmt)
    requires !stmt.MarkSeen?
    ensures t.chats.next <= Exec(t, stmt).chats.next
    ensures forall r :: r in Exec(t, stmt).chats.rows ==> r in t.chats.rows || (r.id == t.chats.next && !r.body.seen)
    ensures forall r :: r in t.chats.rows ==>
              r in Exec(t, stmt).chats.rows || (stmt.DeleteChatsOf? && (stmt.uid == r.body.from || stmt.uid == r.body.to))
  {
  }

  lemma ExecChats(t: Tables, stmt: Stmt)
    requires ValidTable(t.chats)
    ensures ValidTable(Exec(t, stmt).chats)
  {
    if Accepts(t, stmt) {
      ExecChatKeys(t, stmt);
    }
  }

  lemma StepInv(s: State, e: Event)
    requires Inv(s)
    ensures Inv(Step(s, e))
  {
    match e
    case Mark(a, b) => MarkInv(s, a, b);
    case Other(stmt) =>
      if !stmt.MarkSeen? {
        hide Exec, MarkAndReport;
        OtherChats(s.db, stmt);
        ExecChats(s.db, stmt);
      }
  }

  lemma {:induction false} RunInv(s: State, events: seq<Event>)
    requires Inv(s)
    ensures Inv(Run(s, events))
  {
    hide Inv, Step;
    if events != [] {
      RunInv(s, events[..|events| - 1]);
      StepInv(Run(s, events[..|events| - 1]), events[|events| - 1]);
    }
  }

  const INITIAL := State(EMPTY_TABLES, [])

  lemma EmptyInv()
    ensures Inv(INITIAL)
  {
  }

  /**
    Over any interleaving: no id is ever returned twice, live messages are seen exactly
    when some update returned them, and the peer and the caller of that update are the sender and
    the recipient.
   */
  lemma SeenIdsReportedOnce(events: seq<Event>)
    ensures var s := Run(INITIAL, events);
            && ReportsDisjoint(s) && NoRepeats(s)
            && (forall r :: r in s.db.chats.rows ==>
                  (r.body.seen <==> exists n :: 0 <= n < |s.reports| && r.id in s.reports[n].ids))
            && (forall r, n :: r in s.db.chats.rows && 0 <= n < |s.reports| && r.id in s.reports[n].ids ==>
                  r.body.from == s.reports[n].peer && r.body.to == s.reports[n].caller)
  {
    hide Run;
    EmptyInv();
    RunInv(INITIAL, events);
  }

  // ----- an acknowledged message is never lost -----

  predicate Deletes(e: Event, r: Row<Chat>) {
    e.Other? && e.stmt.DeleteChatsOf? && (e.stmt.uid == r.body.from || e.stmt.uid == r.body.to)
  }

  lemma StepKeeps(s: State, e: Event, r: Row<Chat>) returns (q: Row<Chat>)
    requires r in s.db.chats.rows && !Deletes(e, r)
    ensures q in Step(s, e).db.chats.rows && Later(r, q)
  {
    hide SeeRows, UnseenIds;
    q := r;
    match e
    case Mark(a, b) =>
      SeeRowsExact(s.db.chats.rows, b, a);
      q := SeeRow(r, b, a);
    case Other(stmt) =>
      if !stmt.MarkSeen? {
        OtherChats(s.db, stmt);
      }
  }

  lemma {:induction false} RunKeeps(s: State, events: seq<Event>, r: Row<Chat>) returns (q: Row<Chat>)
    requires r in s.db.chats.rows
    requires forall k :: 0 <= k < |events| ==> !Deletes(events[k], r)
    ensures q in Run(s, events).db.chats.rows && Later(r, q)
  {
    hide Step;
    if events == [] {
      q := r;
    } else {
      var p := RunKeeps(s, events[..|events| - 1], r);
      q := StepKeeps(Run(s, events[..|events| - 1]), events[|events| - 1], p);
    }
  }

  // ----- reconnect synchronisation -----

  function UnseenTo(uid: Uid): Row<Chat> -> bool {
    (r: Row<Chat>) => r.body.to == uid && !r.body.seen
  }

  function OlderUnseen(uid: Uid, id: nat): Row<Chat> -> bool {
    (r: Row<Chat>) => r.body.to == uid && !r.body.seen && r.id < id
  }

  /** SELECT ... WHERE to_uid = uid AND NOT seen ORDER BY id LIMIT limit. */
  function GetUnseen(rows: seq<Row<Chat>>, uid: Uid, limit: nat): seq<Row<Chat>> {
    Take(Filter(rows, UnseenTo(uid)), limit)
  }

  /** A sync page holds a message if and only if it is unseen and fewer than `limit` older ones are. */
  lemma SyncPageExact(t: Table<Chat>, uid: Uid, limit: nat, r: Row<Chat>)
    requires ValidTable(t) && r in t.rows
    ensures r in GetUnseen(t.rows, uid, limit)
            <==> r.body.to == uid && !r.body.seen && |Filter(t.rows, OlderUnseen(uid, r.id))| < limit
    ensures forall q :: q in Filter(t.rows, OlderUnseen(uid, r.id)) <==>
              q in t.rows && q.body.to == uid && !q.body.seen && q.id < r.id
  {
    PageExact(t.rows, UnseenTo(uid), OlderUnseen(uid, r.id), limit, r);
  }

  /** ORDER BY id: the page is ascending, so no message is on it twice. */
  lemma SyncPageAscends(t: Table<Chat>, uid: Uid, limit: nat)
    requires ValidTable(t)
    ensures Ascending(GetUnseen(t.rows, uid, limit)) && |GetUnseen(t.rows, uid, limit)| <= limit
  {
    FilterAscending(t.rows, UnseenTo(uid));
  }

  /**
    A persisted private message survives every later interleaving that deletes neither
    party's messages, with its content unchanged; afterwards it is either seen, with its id
    returned by exactly one update, or it is in the recipient's next sync page whenever fewer
    than 200 older messages are unseen.
   */
  lemma AckedMessageNeverLost(events: seq<Event>, more: seq<Event>, r: Row<Chat>) returns (q: Row<Chat>)
    requires r in Run(INITIAL, events).db.chats.rows
    requires forall k :: 0 <= k < |more| ==> !Deletes(more[k], r)
    ensures var s := Run(Run(INITIAL, events), more);
            && q in s.db.chats.rows && Later(r, q)
            && (q.body.seen ==> exists n :: 0 <= n < |s.reports| && q.id in s.reports[n].ids)
            && ReportsDisjoint(s)
            && (!q.body.seen ==>
                  (q in GetUnseen(s.db.chats.rows, q.body.to, SYNC_LIMIT)
                   <==> |Filter(s.db.chats.rows, OlderUnseen(q.body.to, q.id))| < SYNC_LIMIT))
  {
    hide Run, GetUnseen, Filter;
    EmptyInv();
    RunInv(INITIAL, events);
    RunInv(Run(INITIAL, events), more);
    q := RunKeeps(Run(INITIAL, events), more, r);
    SyncPageExact(Run(Run(INITIAL, events), more).db.chats, q.body.to, SYNC_LIMIT, q);
  }
}
