/**
  The database and the connections as one interleaved system: seen-marking with the notices
  it leads to, and the offline synchronisation loading what is unread at that moment.
 */
module Server {
  import opened Base
  import opened Schema
  import opened OnlineUsers
  import C = Connections
  import SeenReports
  import GroupSync
  import Router

  /**
    A handler after its UPDATE, one per report. Querying: message_history before its page query.
    Due: the notice is to be sent. Over: send_to_user has been called, or there is nothing to send.
   */
  datatype Handler = Querying | Due | Over

  /** `holder`: the handler whose send_to_user holds the lock, past the alive check. */
  datatype State = State(marks: SeenReports.State, sys: C.Sys, handlers: seq<Handler>, holder: Option<nat>)

  const INITIAL := State(SeenReports.INITIAL, C.INITIAL, [], None)

  /**
    Mark: the UPDATE of mark_seen or message_history. PageQuery and CheckPeer: the next steps of
    handler n. Load: the next query of a connection's sync task. Link: any other step of the
    connections, SendFinish included.
   */
  datatype Event =
    | Mark(caller: Uid, peer: Uid, history: bool)
    | PageQuery(n: nat, ok: bool)
    | CheckPeer(n: nat)
    | Load(c: nat, ok: bool)
    | Statement(stmt: Stmt)
    | Link(e: C.Event)

  function NoticeOf(r: SeenReports.Report): Frame {
    Frame(Push, SeenUpdate(r.ids, r.caller))
  }

  /** What the next query of the sync task finds; a failed query is logged and finds nothing. */
  function Loaded(s: State, c: nat, ok: bool): seq<Payload>
    requires c < |s.sys.tasks| && c < |s.sys.reg.chans|
  {
    var uid := s.sys.reg.chans[c].owner;
    if !ok then []
    else if s.sys.tasks[c].sync.NotLoaded? then
      Router.PrivatePushes(SeenReports.GetUnseen(s.marks.db.chats.rows, uid, SYNC_LIMIT))
    else Router.GroupPushes(GroupSync.GetUnseenPosts(s.marks.db, uid, SYNC_LIMIT))
  }

  /** Steps of the connections that neither query the database nor send a notice of their own. */
  predicate OtherLink(e: C.Event) {
    && !e.SyncLoad?
    && (e.SendBegin? || e.ReaderReply? ==> !e.payload.SeenUpdate?)
  }

  ghost function Step(s: State, e: Event): (s': State)
    requires C.Ok(s.sys)
    ensures C.Ok(s'.sys)
  {
    match e
    case Mark(caller, peer, history) =>
      var ids := UnseenIds(s.marks.db.chats.rows, peer, caller);
      s.(marks := SeenReports.Step(s.marks, SeenReports.Mark(caller, peer)),
         handlers := s.handlers + [if history then Querying else if ids == [] then Over else Due])
    case PageQuery(n, ok) =>
      if n < |s.handlers| && n < |s.marks.reports| && s.handlers[n].Querying?
      then s.(handlers := s.handlers[n := if ok && s.marks.reports[n].ids != [] then Due else Over])
      else s
    case CheckPeer(n) =>
      if n < |s.handlers| && n < |s.marks.reports| && s.handlers[n].Due? && s.sys.lock.Free? then
        var sys := C.Step(s.sys, C.SendBegin(s.marks.reports[n].peer, NoticeOf(s.marks.reports[n]).payload));
        s.(sys := sys, handlers := s.handlers[n := Over], holder := if sys.lock.Sending? then Some(n) else None)
      else s
    case Load(c, ok) =>
      if c < |s.sys.tasks| then s.(sys := C.Step(s.sys, C.SyncLoad(c, Loaded(s, c, ok)))) else s
    case Statement(stmt) => s.(marks := SeenReports.Step(s.marks, SeenReports.Other(stmt)))
    case Link(e) =>
      if OtherLink(e) then s.(sys := C.Step(s.sys, e), holder := if e.SendFinish? then None else s.holder) else s
  }

  ghost function Run(events: seq<Event>): (s: State)
    ensures C.Ok(s.sys)
  {
    if events == [] then INITIAL else Step(Run(events[..|events| - 1]), events[|events| - 1])
  }

  // ----- the lock -----

  /** A notice holds the lock exactly while its handler does. */
  ghost predicate HandlersInv(s: State) {
    && |s.handlers| == |s.marks.reports|
    && (s.holder.Some? ==>
          s.holder.value < |s.marks.reports|
          && var r := s.marks.reports[s.holder.value];
          s.sys.lock == C.Sending(r.peer, NoticeOf(r).payload))
    && (s.sys.lock.Sending? && s.sys.lock.payload.SeenUpdate? ==> s.holder.Some?)
  }

  lemma LockStep(s: C.Sys, e: C.Event)
    requires C.Ok(s)
    ensures C.Step(s, e).lock ==
            if e.SendFinish? then C.Free
            else if e.SendBegin? && s.lock.Free? then
              (if e.uid in s.reg.online && s.reg.chans[s.reg.online[e.uid]].alive then C.Sending(e.uid, e.payload) else C.Free)
            else s.lock
    ensures e.SendBegin? && s.lock.Free? && C.Step(s, e).lock.Sending? ==> C.Step(s, e).reg == s.reg
  {
    hide C.TaskStep;
  }

  lemma StepHandlers(s: State, e: Event)
    requires C.Ok(s.sys) && HandlersInv(s)
    ensures HandlersInv(Step(s, e))
  {
    match e
    case Mark(_, _, _) =>
    case PageQuery(_, _) =>
    case CheckPeer(n) =>
      if n < |s.marks.reports| {
        LockStep(s.sys, C.SendBegin(s.marks.reports[n].peer, NoticeOf(s.marks.reports[n]).payload));
        hide C.Step;
      }
    case Load(c, ok) =>
      if c < |s.sys.tasks| {
        LockStep(s.sys, C.SyncLoad(c, Loaded(s, c, ok)));
        hide C.Step, Loaded;
      }
    case Statement(_) =>
    case Link(l) =>
      LockStep(s.sys, l);
      hide C.Step;
  }

  // ----- where notices come from -----

  /** No notice was enqueued by the step: connections may have come, gone and received other frames. */
  ghost predicate Unrelated(r: Registry, r': Registry) {
    && |r.chans| <= |r'.chans|
    && (forall c :: 0 <= c < |r.chans| ==> r'.chans[c].owner == r.chans[c].owner)
    && (forall c, f: Frame :: 0 <= c < |r'.chans| && f.payload.SeenUpdate? ==>
          (f in r'.chans[c].accepted <==> c < |r.chans| && f in r.chans[c].accepted))
  }

  predicate CleanRows(rows: seq<Payload>) {
    forall i | 0 <= i < |rows| :: !rows[i].SeenUpdate?
  }

  /** No sync task is about to push a notice. */
  ghost predicate Clean(s: C.Sys) {
    forall c :: 0 <= c < |s.tasks| ==> CleanRows(C.Unpushed(s.tasks[c]))
  }

  predicate NoticeFree(e: C.Event) {
    && (e.ReaderReply? ==> !e.payload.SeenUpdate?)
    && (e.SyncLoad? ==> CleanRows(e.rows))
  }

  /** A task step of a connection enqueues no notice. */
  lemma TaskEnqueuesNoNotice(e: C.Event, ch: Chan, t: C.Tasks)
    requires C.IsTaskEvent(e) && NoticeFree(e) && CleanRows(C.Unpushed(t))
    ensures var (ch', t') := C.TaskStep(e, ch, t);
            && ch'.owner == ch.owner && CleanRows(C.Unpushed(t'))
            && (forall f: Frame :: f.payload.SeenUpdate? ==> (f in ch'.accepted <==> f in ch.accepted))
  {
  }

  lemma TaskIsUnrelated(s: C.Sys, e: C.Event)
    requires C.Ok(s) && Clean(s) && C.IsTaskEvent(e) && NoticeFree(e)
    ensures Unrelated(s.reg, C.Step(s, e).reg) && Clean(C.Step(s, e))
  {
    hide C.TaskStep, C.Unpushed;
    if e.c < |s.tasks| {
      TaskEnqueuesNoNotice(e, s.reg.chans[e.c], s.tasks[e.c]);
    }
  }

  /** The map changes no sync task, and a new connection starts with nothing enqueued or loaded. */
  lemma MapKeepsTasks(s: C.Sys, e: C.Event)
    requires C.Ok(s) && !C.IsTaskEvent(e)
    ensures var s' := C.Step(s, e);
            && |s.tasks| <= |s'.tasks| && |s'.tasks| == |s'.reg.chans|
            && (forall c :: 0 <= c < |s.tasks| ==> s'.tasks[c].sync == s.tasks[c].sync)
            && (forall c :: |s.tasks| <= c < |s'.tasks| ==> s'.tasks[c].sync.NotLoaded? && s'.reg.chans[c].accepted == [])
  {
  }

  /** What a step of the map adds to a channel: the finished send, or the kick frame. */
  lemma MapAdds(s: C.Sys, e: C.Event, c: nat)
    requires C.Ok(s) && !C.IsTaskEvent(e) && c < |s.reg.chans|
    ensures var s' := C.Step(s, e);
            && c < |s'.reg.chans| && s'.reg.chans[c].owner == s.reg.chans[c].owner
            && (|| s'.reg.chans[c].accepted == s.reg.chans[c].accepted
                || s'.reg.chans[c].accepted == s.reg.chans[c].accepted + [KICK_FRAME]
                || (C.Delivers(s, e, c) && s'.reg.chans[c].accepted == s.reg.chans[c].accepted + [Frame(Push, s.lock.payload)]))
            && (C.Delivers(s, e, c) ==> s'.reg.chans[c].accepted == s.reg.chans[c].accepted + [Frame(Push, s.lock.payload)])
  {
    if C.SendUnderWay(s, c) && e.SendFinish? {
      C.FinishDelivers(s, c);
    }
    C.MapAppends(s, e, c);
    hide C.MapStep;
  }

  /** Neither does a step of the map, unless it finishes the send of a notice. */
  lemma MapIsUnrelated(s: C.Sys, e: C.Event)
    requires C.Ok(s) && Clean(s) && !C.IsTaskEvent(e)
    requires e.SendFinish? && s.lock.Sending? ==> !s.lock.payload.SeenUpdate?
    ensures Unrelated(s.reg, C.Step(s, e).reg) && Clean(C.Step(s, e))
  {
    MapKeepsTasks(s, e);
    forall c | 0 <= c < |s.reg.chans|
      ensures C.Step(s, e).reg.chans[c].owner == s.reg.chans[c].owner
      ensures forall f: Frame :: f.payload.SeenUpdate? ==>
                (f in C.Step(s, e).reg.chans[c].accepted <==> f in s.reg.chans[c].accepted)
    {
      MapAdds(s, e, c);
      hide C.Step;
    }
    hide C.Step;
  }

  // ----- told if and only if sent -----

  /** The step enqueues the notice of report n: its handler's send finds the receiver open. */
  ghost predicate Tells(s: State, e: Event, n: nat) {
    e == Link(C.SendFinish) && s.holder == Some(n)
    && s.sys.lock.Sending? && s.sys.lock.uid in s.sys.reg.online
    && C.Delivers(s.sys, C.SendFinish, s.sys.reg.online[s.sys.lock.uid])
  }

  ghost function SentBy(s: State, e: Event): set<nat> {
    if s.holder.Some? && Tells(s, e, s.holder.value) then {s.holder.value} else {}
  }

  /** The reports whose notice has been enqueued. */
  ghost function Sent(events: seq<Event>): set<nat> {
    if events == [] then {}
    else Sent(events[..|events| - 1]) + SentBy(Run(events[..|events| - 1]), events[|events| - 1])
  }

  /** The frame is the notice of a report in the set, and the user is its peer. */
  ghost predicate Backed(f: Frame, u: Uid, reports: seq<SeenReports.Report>, sent: set<nat>) {
    exists n :: n in sent && n < |reports| && f == NoticeOf(reports[n]) && u == reports[n].peer
  }

  ghost predicate Holds(r: Registry, f: Frame) {
    exists c :: 0 <= c < |r.chans| && f in r.chans[c].accepted
  }

  /** The notices ever enqueued are those of the given reports, on connections of their peers. */
  ghost predicate Frames(r: Registry, reports: seq<SeenReports.Report>, sent: set<nat>) {
    && (forall c, f: Frame :: 0 <= c < |r.chans| && f in r.chans[c].accepted && f.payload.SeenUpdate? ==>
          Backed(f, r.chans[c].owner, reports, sent))
    && (forall n :: n in sent ==> n < |reports| && Holds(r, NoticeOf(reports[n])))
  }

  lemma FramesKept(r: Registry, r': Registry, reports: seq<SeenReports.Report>, reports': seq<SeenReports.Report>,
                   sent: set<nat>)
    requires Frames(r, reports, sent) && Unrelated(r, r') && reports <= reports'
    ensures Frames(r', reports', sent)
  {
    forall c, f: Frame | 0 <= c < |r'.chans| && f in r'.chans[c].accepted && f.payload.SeenUpdate?
      ensures Backed(f, r'.chans[c].owner, reports', sent)
    {
      assert f in r.chans[c].accepted;
      assert Backed(f, r.chans[c].owner, reports, sent);
    }
    forall n | n in sent ensures Holds(r', NoticeOf(reports'[n])) {
      var c :| 0 <= c < |r.chans| && NoticeOf(reports[n]) in r.chans[c].accepted;
      assert NoticeOf(reports'[n]) in r'.chans[c].accepted;
    }
  }

  /** One channel of the peer gains the notice of report n. */
  lemma FramesGain(r: Registry, r': Registry, reports: seq<SeenReports.Report>, sent: set<nat>, n: nat, d: nat)
    requires Frames(r, reports, sent) && n < |reports| && d < |r.chans| == |r'.chans| && r.chans[d].owner == reports[n].peer
    requires forall c :: 0 <= c < |r.chans| ==>
               && r'.chans[c].owner == r.chans[c].owner
               && r'.chans[c].accepted == r.chans[c].accepted + (if c == d then [NoticeOf(reports[n])] else [])
    ensures Frames(r', reports, sent + {n})
  {
    forall c, f: Frame | 0 <= c < |r'.chans| && f in r'.chans[c].accepted && f.payload.SeenUpdate?
      ensures Backed(f, r'.chans[c].owner, reports, sent + {n})
    {
      if f in r.chans[c].accepted {
        assert Backed(f, r.chans[c].owner, reports, sent);
      }
    }
    forall m | m in sent + {n} ensures m < |reports| && Holds(r', NoticeOf(reports[m])) {
      if m == n {
        assert NoticeOf(reports[m]) in r'.chans[d].accepted;
      } else {
        var c :| 0 <= c < |r.chans| && NoticeOf(reports[m]) in r.chans[c].accepted;
        assert NoticeOf(reports[m]) in r'.chans[c].accepted;
      }
    }
  }

  lemma TellFrames(s: State, sent: set<nat>, n: nat)
    requires C.Ok(s.sys) && HandlersInv(s) && Tells(s, Link(C.SendFinish), n) && Frames(s.sys.reg, s.marks.reports, sent)
    ensures Frames(Step(s, Link(C.SendFinish)).sys.reg, s.marks.reports, sent + {n})
  {
    C.FinishedSendMeaning(s.sys);
    hide Frames;
    FramesGain(s.sys.reg, C.Step(s.sys, C.SendFinish).reg, s.marks.reports, sent, n, s.sys.reg.online[s.sys.lock.uid]);
  }

  lemma SameIsUnrelated(r: Registry)
    ensures Unrelated(r, r)
  {
  }

  /** A send whose receiver has gone enqueues nothing. */
  lemma LostSendIsUnrelated(s: C.Sys)
    requires C.Ok(s) && Clean(s) && s.lock.Sending? && !s.reg.chans[s.reg.online[s.lock.uid]].open
    ensures Unrelated(s.reg, C.Step(s, C.SendFinish).reg) && Clean(C.Step(s, C.SendFinish))
  {
    C.FinishedSendMeaning(s);
    MapKeepsTasks(s, C.SendFinish);
    forall c | 0 <= c < |s.reg.chans| ensures C.Step(s, C.SendFinish).reg.chans[c].owner == s.reg.chans[c].owner {
      MapAdds(s, C.SendFinish, c);
    }
    hide C.Step;
  }

  lemma CleanAfterSend(s: State)
    requires C.Ok(s.sys) && Clean(s.sys)
    ensures Clean(Step(s, Link(C.SendFinish)).sys)
  {
    MapKeepsTasks(s.sys, C.SendFinish);
    hide C.Step;
  }

  lemma LinkIsUnrelated(s: State, e: C.Event)
    requires C.Ok(s.sys) && HandlersInv(s) && Clean(s.sys) && NoticeFree(e) && SentBy(s, Link(e)) == {}
    ensures Unrelated(s.sys.reg, C.Step(s.sys, e).reg) && Clean(C.Step(s.sys, e))
  {
    hide Unrelated, Clean, C.Step;
    if C.IsTaskEvent(e) {
      TaskIsUnrelated(s.sys, e);
    } else if e.SendFinish? && s.sys.lock.Sending? && s.sys.lock.payload.SeenUpdate? {
      LostSendIsUnrelated(s.sys);
    } else {
      MapIsUnrelated(s.sys, e);
    }
  }

  lemma StepUnrelated(s: State, e: Event)
    requires C.Ok(s.sys) && HandlersInv(s) && Clean(s.sys) && SentBy(s, e) == {}
    ensures Unrelated(s.sys.reg, Step(s, e).sys.reg) && Clean(Step(s, e).sys)
  {
    hide Unrelated, Clean, C.Step;
    SameIsUnrelated(s.sys.reg);
    match e
    case Mark(_, _, _) =>
    case PageQuery(_, _) =>
    case Statement(_) =>
    case CheckPeer(n) =>
      if n < |s.marks.reports| {
        MapIsUnrelated(s.sys, C.SendBegin(s.marks.reports[n].peer, NoticeOf(s.marks.reports[n]).payload));
      }
    case Load(c, ok) =>
      if c < |s.sys.tasks| {
        TaskIsUnrelated(s.sys, C.SyncLoad(c, Loaded(s, c, ok)));
      }
    case Link(l) =>
      if OtherLink(l) { LinkIsUnrelated(s, l); }
  }

  lemma ReportsGrow(s: State, e: Event)
    requires C.Ok(s.sys)
    ensures s.marks.reports <= Step(s, e).marks.reports
  {
    hide C.Step;
  }

  lemma StepFrames(s: State, e: Event, sent: set<nat>)
    requires C.Ok(s.sys) && HandlersInv(s) && Clean(s.sys) && Frames(s.sys.reg, s.marks.reports, sent)
    ensures Frames(Step(s, e).sys.reg, Step(s, e).marks.reports, sent + SentBy(s, e)) && Clean(Step(s, e).sys)
  {
    hide Frames, Unrelated, Clean;
    ReportsGrow(s, e);
    if SentBy(s, e) == {} {
      StepUnrelated(s, e);
      FramesKept(s.sys.reg, Step(s, e).sys.reg, s.marks.reports, Step(s, e).marks.reports, sent);
      assert sent + {} == sent;
    } else {
      TellFrames(s, sent, s.holder.value);
      CleanAfterSend(s);
    }
  }

  /** A notice not yet sent is not in the set, nor is the one being sent. */
  ghost predicate Fresh(s: State, sent: set<nat>) {
    && (forall n :: n in sent ==> n < |s.handlers| && s.handlers[n].Over? && s.holder != Some(n))
    && (s.holder.Some? ==> s.holder.value < |s.handlers| && s.handlers[s.holder.value].Over?)
  }

  lemma StepFresh(s: State, e: Event, sent: set<nat>)
    requires C.Ok(s.sys) && HandlersInv(s) && Fresh(s, sent)
    ensures Fresh(Step(s, e), sent + SentBy(s, e))
  {
    hide C.Step, Loaded;
  }

  lemma StepMarks(s: State, e: Event)
    requires C.Ok(s.sys) && SeenReports.Inv(s.marks)
    ensures SeenReports.Inv(Step(s, e).marks)
  {
    hide SeenReports.Inv, SeenReports.Step, C.Step;
    match e
    case Mark(caller, peer, _) => SeenReports.StepInv(s.marks, SeenReports.Mark(caller, peer));
    case Statement(stmt) => SeenReports.StepInv(s.marks, SeenReports.Other(stmt));
    case _ =>
  }

  lemma StepLinks(s: State, e: Event)
    requires C.Ok(s.sys) && C.Inv(s.sys)
    ensures C.Inv(Step(s, e).sys)
  {
    hide C.Inv, C.Step, SeenReports.Step;
    match e
    case CheckPeer(n) =>
      if n < |s.marks.reports| {
        C.StepInv(s.sys, C.SendBegin(s.marks.reports[n].peer, NoticeOf(s.marks.reports[n]).payload));
      }
    case Load(c, ok) =>
      if c < |s.sys.tasks| {
        C.StepInv(s.sys, C.SyncLoad(c, Loaded(s, c, ok)));
      }
    case Link(l) => C.StepInv(s.sys, l);
    case _ =>
  }

  ghost predicate Inv(s: State, sent: set<nat>) {
    && C.Ok(s.sys) && C.Inv(s.sys) && SeenReports.Inv(s.marks)
    && HandlersInv(s) && Clean(s.sys) && Frames(s.sys.reg, s.marks.reports, sent) && Fresh(s, sent)
  }

  lemma FirstInv()
    ensures Inv(INITIAL, {})
  {
    SeenReports.EmptyInv();
  }

  /** In every reachable state both halves keep their invariants, and the notices enqueued are those sent. */
  lemma {:induction false} RunInv(events: seq<Event>)
    ensures Inv(Run(events), Sent(events))
  {
    hide C.Ok, C.Inv, SeenReports.Inv, HandlersInv, Clean, Frames, Fresh, Step, SentBy;
    if events == [] {
      FirstInv();
    } else {
      var before, e := Run(events[..|events| - 1]), events[|events| - 1];
      var sent := Sent(events[..|events| - 1]);
      RunInv(events[..|events| - 1]);
      StepMarks(before, e);
      StepLinks(before, e);
      StepHandlers(before, e);
      StepFrames(before, e, sent);
      StepFresh(before, e, sent);
    }
  }

  // ----- the steps of one notice -----

  /** The step makes the notice of report n due: ids were marked and the page query, if there is one, succeeded. */
  ghost predicate Readies(s: State, e: Event, n: nat) {
    || (e.Mark? && !e.history && n == |s.handlers| && UnseenIds(s.marks.db.chats.rows, e.peer, e.caller) != [])
    || (e == PageQuery(n, true) && n < |s.handlers| && s.handlers[n].Querying?
        && n < |s.marks.reports| && s.marks.reports[n].ids != [])
  }

  /** The step finds the peer's entry alive and takes the lock for the notice of report n. */
  ghost predicate Checks(s: State, e: Event, n: nat) {
    && e == CheckPeer(n) && n < |s.handlers| && n < |s.marks.reports| && s.handlers[n].Due? && s.sys.lock.Free?
    && var peer := s.marks.reports[n].peer;
    && peer in s.sys.reg.online
    && s.sys.reg.online[peer] < |s.sys.reg.chans| && s.sys.reg.chans[s.sys.reg.online[peer]].alive
  }

  ghost predicate ReadiesAt(events: seq<Event>, k: nat, n: nat) {
    k < |events| && Readies(Run(events[..k]), events[k], n)
  }

  ghost predicate ChecksAt(events: seq<Event>, k: nat, n: nat) {
    k < |events| && Checks(Run(events[..k]), events[k], n)
  }

  ghost predicate TellsAt(events: seq<Event>, k: nat, n: nat) {
    k < |events| && Tells(Run(events[..k]), events[k], n)
  }

  lemma SentByIff(s: State, e: Event, n: nat)
    ensures n in SentBy(s, e) <==> Tells(s, e, n)
  {
  }

  lemma TellsLater(events: seq<Event>, n: nat)
    requires events != []
    ensures var m := |events| - 1;
            (exists k :: TellsAt(events, k, n)) <==> (exists k :: TellsAt(events[..m], k, n)) || Tells(Run(events[..m]), events[m], n)
  {
    hide Run, Tells;
    var m := |events| - 1;
    forall k: nat | k < m ensures TellsAt(events, k, n) <==> TellsAt(events[..m], k, n) {
      assert events[..m][..k] == events[..k];
    }
    assert TellsAt(events, m, n) <==> Tells(Run(events[..m]), events[m], n);
  }

  lemma {:induction false} SentIff(events: seq<Event>, n: nat)
    ensures n in Sent(events) <==> exists k :: TellsAt(events, k, n)
  {
    if events != [] {
      SentIff(events[..|events| - 1], n);
      SentByIff(Run(events[..|events| - 1]), events[|events| - 1], n);
      TellsLater(events, n);
      hide Run, Tells, SentBy, TellsAt;
    }
  }

  lemma DueStep(s: State, e: Event, n: nat)
    requires C.Ok(s.sys) && HandlersInv(s) && n < |Step(s, e).handlers| && Step(s, e).handlers[n].Due?
    ensures Readies(s, e, n) || (n < |s.handlers| && s.handlers[n].Due?)
  {
    hide C.Step, Loaded;
  }

  lemma RunHandlers(events: seq<Event>)
    ensures HandlersInv(Run(events))
  {
    hide C.Inv, SeenReports.Inv, HandlersInv, Clean, Frames, Fresh, Run;
    RunInv(events);
  }

  lemma {:induction false} DueWasReadied(events: seq<Event>, n: nat) returns (k: nat)
    requires n < |Run(events).handlers| && Run(events).handlers[n].Due?
    ensures ReadiesAt(events, k, n)
  {
    hide Step, Readies, HandlersInv;
    var m := |events| - 1;
    RunHandlers(events[..m]);
    DueStep(Run(events[..m]), events[m], n);
    if n < |Run(events[..m]).handlers| && Run(events[..m]).handlers[n].Due? {
      k := DueWasReadied(events[..m], n);
      assert events[..m][..k] == events[..k];
    } else {
      k := m;
    }
  }

  /** A handler does what its turn asks: readied, its notice is due; checked, it holds the lock. */
  lemma HandlerProceeds(s: State, e: Event, n: nat)
    requires C.Ok(s.sys) && HandlersInv(s)
    ensures Readies(s, e, n) ==> n < |Step(s, e).handlers| && Step(s, e).handlers[n].Due?
    ensures Checks(s, e, n) ==> Step(s, e).holder == Some(n) && Step(s, e).handlers[n].Over?
  {
    if Checks(s, e, n) {
      LockStep(s.sys, C.SendBegin(s.marks.reports[n].peer, NoticeOf(s.marks.reports[n]).payload));
    }
    hide C.Step, Loaded;
  }

  lemma HolderStep(s: State, e: Event, n: nat)
    requires C.Ok(s.sys) && Step(s, e).holder == Some(n)
    ensures Checks(s, e, n) || s.holder == Some(n)
  {
    if e.CheckPeer? && n < |s.marks.reports| {
      LockStep(s.sys, C.SendBegin(s.marks.reports[n].peer, NoticeOf(s.marks.reports[n]).payload));
    }
    hide C.Step, Loaded;
  }

  lemma {:induction false} HolderChecked(events: seq<Event>, n: nat) returns (k: nat)
    requires Run(events).holder == Some(n)
    ensures ChecksAt(events, k, n)
  {
    hide Step, Checks;
    var m := |events| - 1;
    HolderStep(Run(events[..m]), events[m], n);
    if Run(events[..m]).holder == Some(n) {
      k := HolderChecked(events[..m], n);
      assert events[..m][..k] == events[..k];
    } else {
      k := m;
    }
  }

  // ----- main results: who is told that a message was seen -----

  /** Some connection of the user was sent a notice that the reader has seen the message. */
  ghost predicate Told(r: Registry, u: Uid, reader: Uid, id: nat) {
    exists c, ids :: 0 <= c < |r.chans| && r.chans[c].owner == u
      && Frame(Push, SeenUpdate(ids, reader)) in r.chans[c].accepted && id in ids
  }

  lemma ToldIffSent(r: Registry, reports: seq<SeenReports.Report>, sent: set<nat>, from: Uid, to: Uid, id: nat)
    requires Frames(r, reports, sent)
    requires forall n :: 0 <= n < |reports| && id in reports[n].ids ==> reports[n].peer == from && reports[n].caller == to
    ensures Told(r, from, to, id) <==> exists n :: n in sent && n < |reports| && id in reports[n].ids
    ensures forall u, reader :: Told(r, u, reader, id) ==> u == from && reader == to
  {
    forall u, reader | Told(r, u, reader, id)
      ensures u == from && reader == to && exists n :: n in sent && n < |reports| && id in reports[n].ids
    {
      var c, ids :| 0 <= c < |r.chans| && r.chans[c].owner == u
                    && Frame(Push, SeenUpdate(ids, reader)) in r.chans[c].accepted && id in ids;
      assert Backed(Frame(Push, SeenUpdate(ids, reader)), u, reports, sent);
    }
    if n :| n in sent && n < |reports| && id in reports[n].ids {
      assert Holds(r, NoticeOf(reports[n]));
      var c :| 0 <= c < |r.chans| && NoticeOf(reports[n]) in r.chans[c].accepted;
      assert Backed(NoticeOf(reports[n]), r.chans[c].owner, reports, sent);
      assert Frame(Push, SeenUpdate(reports[n].ids, to)) in r.chans[c].accepted;
    }
  }

  /**
    Over any run: the sender of a live message is told that its recipient has seen it if and only
    if the handler whose UPDATE marked it has finished its send and found the receiver open at
    that step. Nobody else is ever told, and of no other reader.
   */
  lemma SenderToldIff(events: seq<Event>, r: Row<Chat>)
    requires r in Run(events).marks.db.chats.rows
    ensures var s := Run(events);
            && (Told(s.sys.reg, r.body.from, r.body.to, r.id)
                <==> exists k: nat, n: nat :: TellsAt(events, k, n) && n < |s.marks.reports| && r.id in s.marks.reports[n].ids)
            && (forall u, reader :: Told(s.sys.reg, u, reader, r.id) ==> u == r.body.from && reader == r.body.to)
            && (!r.body.seen ==> !Told(s.sys.reg, r.body.from, r.body.to, r.id))
  {
    var s := Run(events);
    RunInv(events);
    hide Run, C.Inv, HandlersInv, Clean, Frames, Fresh, TellsAt, Told;
    ToldIffSent(s.sys.reg, s.marks.reports, Sent(events), r.body.from, r.body.to, r.id);
    forall n: nat ensures n in Sent(events) <==> exists k :: TellsAt(events, k, n) {
      SentIff(events, n);
    }
  }

  /** That send had passed the alive check of the peer's entry before, when the notice had been made due. */
  lemma TellingWasPrepared(events: seq<Event>, k: nat, n: nat) returns (i: nat, m: nat)
    requires TellsAt(events, k, n)
    ensures m < i < k && ChecksAt(events, i, n) && ReadiesAt(events, m, n)
  {
    hide Run;
    i := HolderChecked(events[..k], n);
    assert events[..k][..i] == events[..i];
    m := DueWasReadied(events[..i], n);
    assert events[..i][..m] == events[..m];
  }

  /** A notice in flight is not yet told: its handler has not come to the send, or is between its halves. */
  lemma InFlightIsNotTold(events: seq<Event>, n: nat)
    requires n < |Run(events).handlers| && (!Run(events).handlers[n].Over? || Run(events).holder == Some(n))
    ensures !exists k :: TellsAt(events, k, n)
  {
    hide Run, C.Inv, SeenReports.Inv, HandlersInv, Clean, Frames, TellsAt;
    RunInv(events);
    SentIff(events, n);
  }

  lemma SendIsTwoHalves(s: State, n: nat)
    requires C.Ok(s.sys) && HandlersInv(s) && n < |s.handlers| && s.handlers[n].Due? && s.sys.lock.Free?
    ensures var s1 := Step(s, CheckPeer(n));
            var peer := s.marks.reports[n].peer;
            && Step(s1, Link(C.SendFinish)).sys.reg == OnlineUsers.Send(s.sys.reg, peer, NoticeOf(s.marks.reports[n]))
            && (Tells(s1, Link(C.SendFinish), n) <==> Deliverable(s.sys.reg, peer))
  {
    var peer, p := s.marks.reports[n].peer, NoticeOf(s.marks.reports[n]).payload;
    C.BothHalves(s.sys, peer, p);
    LockStep(s.sys, C.SendBegin(peer, p));
    hide C.Step, OnlineUsers.Send;
  }

  /**
    When nothing runs between the halves of the send, the peer is told if and only if the peer
    can be delivered to at the moment of the send - not of the UPDATE.
   */
  lemma SendTellsIffDeliverable(events: seq<Event>, n: nat)
    requires var s := Run(events); n < |s.handlers| && s.handlers[n].Due? && s.sys.lock.Free?
    ensures var s := Run(events);
            var more := events + [CheckPeer(n), Link(C.SendFinish)];
            && n < |s.marks.reports|
            && Run(more).sys.reg == OnlineUsers.Send(s.sys.reg, s.marks.reports[n].peer, NoticeOf(s.marks.reports[n]))
            && (TellsAt(more, |events| + 1, n) <==> Deliverable(s.sys.reg, s.marks.reports[n].peer))
  {
    var s := Run(events);
    var more := events + [CheckPeer(n), Link(C.SendFinish)];
    RunHandlers(events);
    assert more[..|events| + 1] == events + [CheckPeer(n)];
    assert (events + [CheckPeer(n)])[..|events|] == events;
    SendIsTwoHalves(s, n);
    hide Step;
  }

  lemma RunOneMore(events: seq<Event>, e: Event)
    ensures Run(events + [e]) == Step(Run(events), e)
    ensures (events + [e])[..|events|] == events
  {
    assert (events + [e])[..|events|] == events;
  }

  const HELLO := Row(1, None, Chat(1, 2, "hello", 1, false))

  const WRITE := Statement(InsertChat(Chat(1, 2, "hello", 1, false), None))

  /** User 1 has written message 1 to user 2; nobody is connected. */
  lemma Written()
    ensures Run([WRITE]) == INITIAL.(marks := SeenReports.State(EMPTY_TABLES.(chats := Table([HELLO], 2)), []))
  {
    RunOneMore([], WRITE);
  }

  lemma HelloIsUnseen()
    ensures UnseenIds([HELLO], 1, 2) == [1]
  {
    assert Filter([HELLO], UnseenFrom(1, 2)) == [HELLO];
  }

  /** What user 2's mark_seen leads to from there, if nothing else happens. */
  lemma MarkHello(s: State)
    requires C.Ok(s.sys) && s.marks.db.chats.rows == [HELLO] && s.marks.reports == [] && s.handlers == []
    ensures var s' := Step(s, Mark(2, 1, false));
            && s'.sys == s.sys && s'.holder == s.holder && s'.handlers == [Due]
            && |s'.marks.reports| == 1 && s'.marks.reports[0] == SeenReports.Report(1, 2, [1])
  {
    HelloIsUnseen();
    hide C.Step, UnseenIds;
  }

  /** User 1 is the only one connected. */
  const ONE_ONLINE := C.Sys(Registry([NewChan(1)], map[1 := 0]), [C.NewTasks()], C.Free)

  lemma ConnectsFirst(s: State)
    requires s.sys == C.INITIAL
    ensures Step(s, Link(C.Connect(1))) == s.(sys := ONE_ONLINE)
  {
  }

  lemma DiesBeforeCheck(s: State)
    requires s.sys == ONE_ONLINE && s.handlers == [Due] && s.holder.None? && |s.marks.reports| == 1
    requires s.marks.reports[0].peer == 1
    ensures var s' := Step(Step(s, Link(C.ReaderStop(0))), CheckPeer(0)); s'.handlers == [Over] && s'.holder.None?
  {
    assert C.Step(s.sys, C.ReaderStop(0)).reg.chans == [NewChan(1).(alive := false)];
  }

  /** Being offline at the UPDATE does not matter: a sender who connects before the send is told. */
  lemma ToldThoughOfflineAtUpdate() returns (events: seq<Event>, k: nat)
    ensures |events| == 5 && events[1] == Mark(2, 1, false) && 1 !in Run(events[..1]).sys.reg.online
    ensures TellsAt(events, k, 0) && Run(events[..2]).marks.reports[0].ids == [1]
  {
    var marked := [WRITE] + [Mark(2, 1, false)];
    var online := marked + [Link(C.Connect(1))];
    Written();
    MarkHello(Run([WRITE]));
    RunOneMore([WRITE], Mark(2, 1, false));
    RunOneMore(marked, Link(C.Connect(1)));
    hide Step, Run, TellsAt;
    ConnectsFirst(Run(marked));
    SendTellsIffDeliverable(online, 0);
    events := online + [CheckPeer(0), Link(C.SendFinish)];
    k := |online| + 1;
    assert events[..1] == [WRITE] && events[..2] == marked;
  }

  /** Nor does being online then: a sender whose connection dies before the send is not told. */
  lemma NotToldThoughOnlineAtUpdate() returns (events: seq<Event>)
    ensures |events| == 5 && events[2] == Mark(2, 1, false) && Deliverable(Run(events[..2]).sys.reg, 1)
    ensures Run(events).handlers == [Over] && Run(events).holder.None? && !exists k :: TellsAt(events, k, 0)
  {
    var online := [WRITE] + [Link(C.Connect(1))];
    var marked := online + [Mark(2, 1, false)];
    var dead := marked + [Link(C.ReaderStop(0))];
    events := dead + [CheckPeer(0)];
    Written();
    RunOneMore([WRITE], Link(C.Connect(1)));
    RunOneMore(online, Mark(2, 1, false));
    RunOneMore(marked, Link(C.ReaderStop(0)));
    RunOneMore(dead, CheckPeer(0));
    hide Step, Run;
    ConnectsFirst(Run([WRITE]));
    MarkHello(Run(online));
    DiesBeforeCheck(Run(marked));
    assert events[..2] == online;
  }

  // ----- main result: an acknowledged private message is never lost -----

  predicate Deletes(e: Event, r: Row<Chat>) {
    e.Statement? && SeenReports.Deletes(SeenReports.Other(e.stmt), r)
  }

  lemma StepKeeps(s: State, e: Event, r: Row<Chat>) returns (q: Row<Chat>)
    requires C.Ok(s.sys) && r in s.marks.db.chats.rows && !Deletes(e, r)
    ensures q in Step(s, e).marks.db.chats.rows && SeenReports.Later(r, q)
  {
    hide SeenReports.Step, C.Step, Loaded;
    q := r;
    match e
    case Mark(caller, peer, _) => q := SeenReports.StepKeeps(s.marks, SeenReports.Mark(caller, peer), r);
    case Statement(stmt) => q := SeenReports.StepKeeps(s.marks, SeenReports.Other(stmt), r);
    case _ =>
  }

  lemma {:induction false} RunKeeps(events: seq<Event>, later: seq<Event>, r: Row<Chat>) returns (q: Row<Chat>)
    requires r in Run(events).marks.db.chats.rows
    requires forall k :: 0 <= k < |later| ==> !Deletes(later[k], r)
    ensures q in Run(events + later).marks.db.chats.rows && SeenReports.Later(r, q)
  {
    hide Step;
    if later == [] {
      assert events + later == events;
      q := r;
    } else {
      var m := |later| - 1;
      var p := RunKeeps(events, later[..m], r);
      assert (events + later)[..|events| + m] == events + later[..m];
      q := StepKeeps(Run(events + later[..m]), later[m], p);
    }
  }

  /** What a sync task has loaded stays loaded, and a connection keeps its user. */
  lemma StepLoaded(s: State, e: Event, c: nat)
    requires C.Ok(s.sys) && c < |s.sys.tasks|
    ensures c < |Step(s, e).sys.tasks| && s.sys.tasks[c].loaded <= Step(s, e).sys.tasks[c].loaded
  {
    hide Loaded, SeenReports.Step;
  }

  lemma {:induction false} RunLoaded(events: seq<Event>, more: seq<Event>, c: nat)
    requires c < |Run(events).sys.tasks|
    ensures c < |Run(events + more).sys.tasks| && Run(events).sys.tasks[c].loaded <= Run(events + more).sys.tasks[c].loaded
  {
    hide Step;
    if more == [] {
      assert events + more == events;
    } else {
      var m := |more| - 1;
      RunLoaded(events, more[..m], c);
      assert (events + more)[..|events| + m] == events + more[..m];
      StepLoaded(Run(events + more[..m]), more[m], c);
    }
  }

  function PushOf(r: Row<Chat>): Payload {
    PrivatePush(r.body.from, r.body.to, r.body.content, r.body.msgType)
  }

  /** The first query of a sync task loads an unseen message of its user whenever fewer than 200 older ones are unseen. */
  lemma LoadFinds(s: State, c: nat, r: Row<Chat>)
    requires C.Ok(s.sys) && c < |s.sys.tasks| && s.sys.tasks[c].sync.NotLoaded? && s.sys.reg.chans[c].owner == r.body.to
    requires ValidTable(s.marks.db.chats) && r in s.marks.db.chats.rows && !r.body.seen
    requires |Filter(s.marks.db.chats.rows, SeenReports.OlderUnseen(r.body.to, r.id))| < SYNC_LIMIT
    ensures c < |Step(s, Load(c, true)).sys.tasks| && PushOf(r) in Step(s, Load(c, true)).sys.tasks[c].loaded
  {
    SeenReports.SyncPageExact(s.marks.db.chats, r.body.to, SYNC_LIMIT, r);
    hide Filter, SeenReports.GetUnseen;
    var page := SeenReports.GetUnseen(s.marks.db.chats.rows, r.body.to, SYNC_LIMIT);
    var i :| 0 <= i < |page| && page[i] == r;
    assert Router.PrivatePushes(page)[i] == PushOf(r);
    assert Loaded(s, c, true) == Router.PrivatePushes(page);
  }

  /** A failed query is passed over: nothing is loaded, and the task goes on to its next part. */
  lemma FailedLoad(s: State, c: nat)
    requires C.Ok(s.sys) && c < |s.sys.tasks| && (s.sys.tasks[c].sync.NotLoaded? || s.sys.tasks[c].sync == C.PrivatePart([]))
    ensures var t, t' := s.sys.tasks[c], Step(s, Load(c, false)).sys.tasks[c];
            t' == t.(sync := if t.sync.NotLoaded? then C.PrivatePart([]) else C.GroupPart([]))
  {
    assert s.sys.tasks[c].loaded + [] == s.sys.tasks[c].loaded;
  }

  lemma PushOfPost(page: seq<Row<Post>>, r: Row<Post>)
    requires r in page
    ensures GroupPush(r.body.gid, r.body.from, r.body.content, r.body.msgType) in Router.GroupPushes(page)
  {
    var i :| 0 <= i < |page| && page[i] == r;
    assert Router.GroupPushes(page)[i] == GroupPush(r.body.gid, r.body.from, r.body.content, r.body.msgType);
  }

  lemma LoadStep(s: State, c: nat, ok: bool)
    requires C.Ok(s.sys) && c < |s.sys.tasks|
    ensures Step(s, Load(c, ok)).sys == C.Step(s.sys, C.SyncLoad(c, Loaded(s, c, ok)))
  {
  }

  lemma SecondLoad(s: C.Sys, c: nat, rows: seq<Payload>)
    requires C.Ok(s) && c < |s.tasks| && s.tasks[c].sync == C.PrivatePart([])
    ensures var s' := C.Step(s, C.SyncLoad(c, rows));
            && c < |s'.tasks| && s'.tasks[c].sync == C.GroupPart(rows) && s'.tasks[c].loaded == s.tasks[c].loaded + rows
  {
  }

  /** So does its second query, which runs when the private pushes are done, for an unread message of any group. */
  lemma LoadFindsPost(s: State, c: nat, r: Row<Post>)
    requires C.Ok(s.sys) && c < |s.sys.tasks| && s.sys.tasks[c].sync == C.PrivatePart([])
    requires ValidTable(s.marks.db.posts) && r in s.marks.db.posts.rows
    requires var u := s.sys.reg.chans[c].owner;
             && Cursor(s.marks.db, u, r.body.gid) < r.id
             && |Filter(s.marks.db.posts.rows, GroupSync.OlderUnread(s.marks.db, u, r.id))| < SYNC_LIMIT
    ensures c < |Step(s, Load(c, true)).sys.tasks|
    ensures var t := Step(s, Load(c, true)).sys.tasks[c];
            var p := GroupPush(r.body.gid, r.body.from, r.body.content, r.body.msgType);
            p in t.loaded && t.sync.GroupPart? && p in C.Unpushed(t)
  {
    var u := s.sys.reg.chans[c].owner;
    GroupSync.GroupPageExact(s.marks.db, u, SYNC_LIMIT, r);
    PushOfPost(GroupSync.GetUnseenPosts(s.marks.db, u, SYNC_LIMIT), r);
    hide Filter, GroupSync.GetUnseenPosts, Cursor, Router.GroupPushes;
    LoadStep(s, c, true);
    SecondLoad(s.sys, c, Loaded(s, c, true));
    hide C.Step, Step;
  }

  /** Where a loaded row is, as long as the connection's receiver lives. */
  ghost predicate OnItsWay(s: C.Sys, c: nat, f: Frame)
    requires c < |s.tasks| && c < |s.reg.chans|
  {
    var (ch, t) := (s.reg.chans[c], s.tasks[c]);
    ch.open ==>
      && (f in ch.accepted || f in SyncFrames(C.Unpushed(t)))
      && (t.sync.Finished? ==> f in ch.accepted)
      && (f in ch.accepted && !C.Exited(t) ==> f in t.written || f in C.Hand(t) || f in ch.queue)
  }

  lemma LoadedIsOnItsWay(s: C.Sys, c: nat, p: Payload)
    requires C.Ok(s) && C.Inv(s) && c < |s.tasks| && p in s.tasks[c].loaded
    ensures OnItsWay(s, c, Frame(Sync, p))
  {
    var (ch, t) := (s.reg.chans[c], s.tasks[c]);
    assert C.ConnInv(ch, t, C.IsEntry(s, c));
    var i :| 0 <= i < |t.loaded| && t.loaded[i] == p;
    assert SyncFrames(t.loaded)[i] == Frame(Sync, p);
    hide C.Inv, C.BitsInv, C.KickedInv, SyncFrames;
  }

  /**
    End to end: a persisted private message survives every later interleaving that deletes
    neither party. At any later moment it is either seen, its id returned by exactly one UPDATE,
    or unseen; then, if fewer than 200 older messages are, whichever connection of the recipient
    loads its unread messages next has it on the way to its socket - still to be pushed, queued,
    in hand or written - at every moment after that, as long as its receiver lives.
   */
  lemma AckedMessageNeverLost(events: seq<Event>, later: seq<Event>, c: nat, more: seq<Event>, r: Row<Chat>)
    returns (q: Row<Chat>)
    requires r in Run(events).marks.db.chats.rows
    requires forall k :: 0 <= k < |later| ==> !Deletes(later[k], r)
    ensures var s, t := Run(events + later), Run(events + later + [Load(c, true)] + more);
            && q in s.marks.db.chats.rows && SeenReports.Later(r, q) && SeenReports.ReportsDisjoint(s.marks)
            && (q.body.seen <==> exists n :: 0 <= n < |s.marks.reports| && q.id in s.marks.reports[n].ids)
            && (!q.body.seen && c < |s.sys.tasks| && s.sys.tasks[c].sync.NotLoaded? && s.sys.reg.chans[c].owner == q.body.to
                && |Filter(s.marks.db.chats.rows, SeenReports.OlderUnseen(q.body.to, q.id))| < 200 ==>
                  c < |t.sys.tasks| && OnItsWay(t.sys, c, Frame(Sync, PushOf(q))))
  {
    q := RunKeeps(events, later, r);
    var s := Run(events + later);
    var loading := events + later + [Load(c, true)];
    assert loading[..|events + later|] == events + later;
    RunInv(events + later);
    RunInv(loading + more);
    hide C.Inv, HandlersInv, Clean, Frames, Fresh, Filter, OnItsWay, Step;
    if !q.body.seen && c < |s.sys.tasks| && s.sys.tasks[c].sync.NotLoaded? && s.sys.reg.chans[c].owner == q.body.to
       && |Filter(s.marks.db.chats.rows, SeenReports.OlderUnseen(q.body.to, q.id))| < 200 {
      LoadFinds(s, c, q);
      RunLoaded(loading, more, c);
      LoadedIsOnItsWay(Run(loading + more).sys, c, PushOf(q));
    }
  }

  lemma StepSchema(s: State, e: Event)
    requires C.Ok(s.sys) && Schema.Valid(s.marks.db)
    ensures Schema.Valid(Step(s, e).marks.db)
  {
    hide Schema.Valid, Exec, C.Step, Loaded;
    match e
    case Mark(caller, peer, _) => ExecValid(s.marks.db, MarkSeen(peer, caller));
    case Statement(stmt) => ExecValid(s.marks.db, stmt);
    case _ =>
  }

  lemma {:induction false} RunSchema(events: seq<Event>)
    ensures Schema.Valid(Run(events).marks.db)
  {
    hide Step;
    if events != [] {
      RunSchema(events[..|events| - 1]);
      StepSchema(Run(events[..|events| - 1]), events[|events| - 1]);
    }
  }

  lemma PostsValid(t: Tables)
    requires Schema.Valid(t)
    ensures ValidTable(t.posts)
  {
  }

  /**
    The same for a group message past the cursor of a connection's user, from the moment the sync
    task runs its second query, if fewer than 200 older messages of any group are unread then.
   */
  lemma UnreadPostIsNotLost(events: seq<Event>, c: nat, more: seq<Event>, r: Row<Post>)
    requires var s := Run(events);
             && c < |s.sys.tasks| && s.sys.tasks[c].sync == C.PrivatePart([]) && r in s.marks.db.posts.rows
             && var u := s.sys.reg.chans[c].owner;
             && Cursor(s.marks.db, u, r.body.gid) < r.id
             && |Filter(s.marks.db.posts.rows, GroupSync.OlderUnread(s.marks.db, u, r.id))| < 200
    ensures var t := Run(events + [Load(c, true)] + more);
            && c < |t.sys.tasks|
            && OnItsWay(t.sys, c, Frame(Sync, GroupPush(r.body.gid, r.body.from, r.body.content, r.body.msgType)))
  {
    var loading := events + [Load(c, true)];
    RunSchema(events);
    RunOneMore(events, Load(c, true));
    RunInv(loading + more);
    hide C.Inv, HandlersInv, Clean, Frames, Fresh, SeenReports.Inv, Filter, OnItsWay, Step, KeysHold, ReferencesHold;
    assert ValidTable(Run(events).marks.db.posts) by { PostsValid(Run(events).marks.db); }
    LoadFindsPost(Run(events), c, r);
    RunLoaded(loading, more, c);
    LoadedIsOnItsWay(Run(loading + more).sys, c, GroupPush(r.body.gid, r.body.from, r.body.content, r.body.msgType));
  }
}
