/**
  handle_im_websocket as an interleaved system: per connection a reader, an offline-sync
  task and a forwarding task, all sharing the registry. Any number of connections, any
  scheduling; send_to_user is split where another task can run between its two halves.
 */
module Connections {
  import opened Base
  import opened OnlineUsers

  /** Stopped: alive already cleared, sender handle still held. */
  datatype Reader = Reading | Stopped | Left

  /** Two queries, each followed by its pushes, then the handle is dropped. */
  datatype SyncTask = NotLoaded | PrivatePart(rest: seq<Payload>) | GroupPart(rest: seq<Payload>) | Finished

  /** Broken: loop left. Marked: alive cleared. Gone: receiver dropped. */
  datatype Forwarder = Idle | Writing(frame: Frame) | Broken | Marked | Gone

  /**
    The tasks of one connection, with history: the rows its sync task loaded, the frames the
    socket took and lost, and whether it was replaced while its receiver was open.
   */
  datatype Tasks = Tasks(
    reader: Reader,
    sync: SyncTask,
    fwd: Forwarder,
    loaded: seq<Payload>,
    written: seq<Frame>,
    lost: seq<Frame>,
    kicked: bool)

  /** The registry mutex between the alive check and the send of one send_to_user. */
  datatype Lock = Free | Sending(uid: Uid, payload: Payload)

  datatype Sys = Sys(reg: Registry, tasks: seq<Tasks>, lock: Lock)

  const INITIAL := Sys(EMPTY, [], Free)

  datatype Event =
    | Connect(uid: Uid)
    | SendBegin(uid: Uid, payload: Payload)
    | SendFinish
    | Logout(uid: Uid)
    | ReaderReply(c: nat, payload: Payload)
    | ReaderStop(c: nat)
    | ReaderLeave(c: nat)
    | SyncLoad(c: nat, rows: seq<Payload>)
    | SyncPush(c: nat)
    | SyncEnd(c: nat)
    | FwdRecv(c: nat)
    | FwdWrite(c: nat, ok: bool)
    | FwdEnd(c: nat)
    | FwdMark(c: nat)
    | FwdDrop(c: nat)

  ghost predicate Ok(s: Sys) {
    && Valid(s.reg)
    && |s.tasks| == |s.reg.chans|
    && (s.lock.Sending? ==> s.lock.uid in s.reg.online)
  }

  predicate IsEntry(s: Sys, c: nat)
    requires c < |s.reg.chans|
  {
    s.reg.chans[c].owner in s.reg.online && s.reg.online[s.reg.chans[c].owner] == c
  }

  function NewTasks(): Tasks {
    Tasks(Reading, NotLoaded, Idle, [], [], [], false)
  }

  ghost function ConnectStep(s: Sys, uid: Uid): Sys
    requires Ok(s)
  {
    var marked :=
      if uid in s.reg.online && s.reg.chans[s.reg.online[uid]].open
      then s.tasks[s.reg.online[uid] := s.tasks[s.reg.online[uid]].(kicked := true)]
      else s.tasks;
    s.(reg := Insert(s.reg, uid), tasks := marked + [NewTasks()])
  }

  ghost function MapStep(s: Sys, e: Event): Sys
    requires Ok(s)
  {
    match e
    case Connect(uid) => if s.lock.Free? then ConnectStep(s, uid) else s
    case SendBegin(uid, p) =>
      if s.lock.Free? then
        var found := DropDeadEntry(s.reg, uid);
        s.(reg := found, lock := if uid in found.online then Sending(uid, p) else Free)
      else s
    case SendFinish =>
      if s.lock.Sending? then s.(reg := FinishSend(s.reg, s.lock.uid, Frame(Push, s.lock.payload)), lock := Free) else s
    case Logout(uid) => if s.lock.Free? then s.(reg := Remove(s.reg, uid)) else s
    case _ => s
  }

  /** One step of one task of connection c: its own channel and its own task state. */
  function TaskStep(e: Event, ch: Chan, t: Tasks): (Chan, Tasks) {
    match e
    case ReaderReply(_, p) => (if t.reader.Reading? then Enqueue(ch, Frame(Reply, p)) else ch, t)
    case ReaderStop(_) =>
      if t.reader.Reading? then (ch.(alive := false), t.(reader := Stopped)) else (ch, t)
    case ReaderLeave(_) =>
      if t.reader.Stopped? then (ch.(senders := ch.senders - 1), t.(reader := Left)) else (ch, t)
    case SyncLoad(_, rows) =>
      (ch,
       if t.sync.NotLoaded? then t.(sync := PrivatePart(rows), loaded := t.loaded + rows)
       else if t.sync == PrivatePart([]) then t.(sync := GroupPart(rows), loaded := t.loaded + rows)
       else t)
    case SyncPush(_) =>
      (match t.sync
       case PrivatePart(rest) =>
         if rest == [] then (ch, t) else (Enqueue(ch, Frame(Sync, rest[0])), t.(sync := PrivatePart(rest[1..])))
       case GroupPart(rest) =>
         if rest == [] then (ch, t) else (Enqueue(ch, Frame(Sync, rest[0])), t.(sync := GroupPart(rest[1..])))
       case _ => (ch, t))
    case SyncEnd(_) =>
      if t.sync == GroupPart([]) then (ch.(senders := ch.senders - 1), t.(sync := Finished)) else (ch, t)
    case FwdRecv(_) =>
      if t.fwd.Idle? && ch.queue != [] then (ch.(queue := ch.queue[1..]), t.(fwd := Writing(ch.queue[0]))) else (ch, t)
    case FwdWrite(_, ok) =>
      if !t.fwd.Writing? then (ch, t)
      else if ok then (ch, t.(fwd := Idle, written := t.written + [t.fwd.frame]))
      else (ch, t.(fwd := Broken, lost := t.lost + [t.fwd.frame]))
    case FwdEnd(_) =>
      if t.fwd.Idle? && ch.queue == [] && ch.senders == 0 then (ch, t.(fwd := Broken)) else (ch, t)
    case FwdMark(_) => if t.fwd.Broken? then (ch.(alive := false), t.(fwd := Marked)) else (ch, t)
    case FwdDrop(_) => if t.fwd.Marked? then (ch.(open := false), t.(fwd := Gone)) else (ch, t)
    case _ => (ch, t)
  }

  /**
    What a reader and a sync task do when it is their turn: a reply is enqueued, a stopped reader
    and a finished sync task drop their handles, each query's rows are what is pushed next, one by one.
   */
  lemma TaskMeaning(c: nat, ch: Chan, t: Tasks, p: Payload, rows: seq<Payload>)
    ensures t.reader.Reading? ==>
              && TaskStep(ReaderReply(c, p), ch, t) == (Enqueue(ch, Frame(Reply, p)), t)
              && TaskStep(ReaderStop(c), ch, t) == (ch.(alive := false), t.(reader := Stopped))
    ensures t.reader.Stopped? ==>
              TaskStep(ReaderLeave(c), ch, t) == (ch.(senders := ch.senders - 1), t.(reader := Left))
    ensures t.sync.NotLoaded? ==>
              TaskStep(SyncLoad(c, rows), ch, t) == (ch, t.(sync := PrivatePart(rows), loaded := t.loaded + rows))
    ensures t.sync == PrivatePart([]) ==>
              TaskStep(SyncLoad(c, rows), ch, t) == (ch, t.(sync := GroupPart(rows), loaded := t.loaded + rows))
    ensures t.sync == GroupPart([]) ==>
              TaskStep(SyncEnd(c), ch, t) == (ch.(senders := ch.senders - 1), t.(sync := Finished))
    ensures (t.sync.PrivatePart? || t.sync.GroupPart?) && t.sync.rest == [p] + rows ==>
              TaskStep(SyncPush(c), ch, t) == (Enqueue(ch, Frame(Sync, p)), t.(sync := t.sync.(rest := rows)))
  {
  }

  predicate IsTaskEvent(e: Event) {
    !e.Connect? && !e.SendBegin? && !e.SendFinish? && !e.Logout?
  }

  lemma TaskKeepsOwner(e: Event, ch: Chan, t: Tasks)
    ensures TaskStep(e, ch, t).0.owner == ch.owner
  {
  }

  /** Entries keep pointing at the newest connection of their user, and the lock holder's entry stays. */
  lemma MapOk(s: Sys, e: Event)
    requires Ok(s)
    ensures Ok(MapStep(s, e))
  {
  }

  ghost function Step(s: Sys, e: Event): (s': Sys)
    requires Ok(s)
    ensures Ok(s')
  {
    if IsTaskEvent(e) then
      if e.c < |s.tasks| then
        var (ch, t) := TaskStep(e, s.reg.chans[e.c], s.tasks[e.c]);
        TaskKeepsOwner(e, s.reg.chans[e.c], s.tasks[e.c]);
        s.(reg := s.reg.(chans := s.reg.chans[e.c := ch]), tasks := s.tasks[e.c := t])
      else s
    else
      MapOk(s, e);
      MapStep(s, e)
  }

  ghost function Run(s: Sys, events: seq<Event>): (s': Sys)
    requires Ok(s)
    ensures Ok(s')
  {
    if events == [] then s else Step(Run(s, events[..|events| - 1]), events[|events| - 1])
  }

  // ----- the invariant of one connection -----

  function Holds(b: bool): int {
    if b then 1 else 0
  }

  function IsKick(): Frame -> bool {
    (f: Frame) => f.origin == Kick
  }

  function IsPush(): Frame -> bool {
    (f: Frame) => f.origin == Push
  }

  function IsSync(): Frame -> bool {
    (f: Frame) => f.origin == Sync
  }

  /** Rows loaded but not pushed yet. */
  function Unpushed(t: Tasks): seq<Payload> {
    if t.sync.PrivatePart? || t.sync.GroupPart? then t.sync.rest else []
  }

  function Hand(t: Tasks): seq<Frame> {
    if t.fwd.Writing? then [t.fwd.frame] else []
  }

  predicate Exited(t: Tasks) {
    t.fwd.Broken? || t.fwd.Marked? || t.fwd.Gone?
  }

  /** The sender count is exact, and the receiver and alive bits follow the tasks. */
  ghost predicate BitsInv(ch: Chan, t: Tasks, entry: bool) {
    && ch.senders == Holds(!t.reader.Left?) + Holds(!t.sync.Finished?) + Holds(entry)
    && ch.open == !t.fwd.Gone?
    && (t.fwd.Marked? || t.fwd.Gone? || !t.reader.Reading? ==> !ch.alive)
  }

  /** FIFO without loss, except at most one frame whose write failed. */
  ghost predicate FlowInv(ch: Chan, t: Tasks) {
    && ch.accepted == t.written + Hand(t) + t.lost + ch.queue
    && |t.lost| <= 1
    && (t.lost != [] ==> Exited(t))
    && (Exited(t) && t.lost == [] ==> ch.senders == 0 && ch.queue == [])
  }

  ghost predicate KickedInv(ch: Chan, t: Tasks, entry: bool) {
    && |Filter(ch.accepted, IsKick())| == Holds(t.kicked)
    && (t.kicked ==> !entry)
  }

  /** While the receiver lives, every loaded row has been enqueued in order or is still to come. */
  ghost predicate SyncInv(ch: Chan, t: Tasks) {
    ch.open ==> SyncFrames(t.loaded) == Filter(ch.accepted, IsSync()) + SyncFrames(Unpushed(t))
  }

  ghost predicate ConnInv(ch: Chan, t: Tasks, entry: bool) {
    BitsInv(ch, t, entry) && FlowInv(ch, t) && KickedInv(ch, t, entry) && SyncInv(ch, t)
  }

  ghost predicate Inv(s: Sys)
    requires Ok(s)
  {
    forall c :: 0 <= c < |s.tasks| ==> ConnInv(s.reg.chans[c], s.tasks[c], IsEntry(s, c))
  }

  lemma EnqueueFlow(ch: Chan, t: Tasks, f: Frame)
    requires FlowInv(ch, t) && ch.senders > 0
    ensures FlowInv(Enqueue(ch, f), t)
  {
  }

  lemma EnqueueInv(ch: Chan, t: Tasks, entry: bool, f: Frame)
    requires ConnInv(ch, t, entry) && f.origin != Kick && f.origin != Sync && ch.senders > 0
    ensures ConnInv(Enqueue(ch, f), t, entry)
  {
  }

  /** The replaced entry: one kick frame if it could still be reached, and one handle less. */
  lemma KickInv(ch: Chan, t: Tasks)
    requires ConnInv(ch, t, true)
    ensures var ch' := Enqueue(ch, KICK_FRAME);
            ConnInv(ch'.(senders := ch'.senders - 1), t.(kicked := ch.open), false)
  {
  }

  /** Reading, writing and failing keep the order: a frame only moves from queue to hand to socket. */
  lemma ForwarderFlow(e: Event, ch: Chan, t: Tasks)
    requires FlowInv(ch, t) && (e.FwdRecv? || e.FwdWrite? || e.FwdEnd? || e.FwdMark? || e.FwdDrop?)
    ensures FlowInv(TaskStep(e, ch, t).0, TaskStep(e, ch, t).1)
  {
  }

  lemma ForwarderInv(e: Event, ch: Chan, t: Tasks, entry: bool)
    requires ConnInv(ch, t, entry) && (e.FwdRecv? || e.FwdWrite? || e.FwdEnd? || e.FwdMark? || e.FwdDrop?)
    ensures ConnInv(TaskStep(e, ch, t).0, TaskStep(e, ch, t).1, entry)
  {
    hide FlowInv, Filter;
    ForwarderFlow(e, ch, t);
  }

  /** Reader exit and sync exit: the alive flag falls, a handle is dropped, no frame moves. */
  lemma EndsInv(e: Event, ch: Chan, t: Tasks, entry: bool)
    requires ConnInv(ch, t, entry) && (e.ReaderStop? || e.ReaderLeave? || e.SyncEnd?)
    ensures ConnInv(TaskStep(e, ch, t).0, TaskStep(e, ch, t).1, entry)
  {
    hide Filter;
  }

  lemma ShiftFirst<T>(done: seq<T>, x: T, rest: seq<T>)
    ensures done + ([x] + rest) == (done + [x]) + rest
  {
  }

  lemma SyncFramesFirst(rest: seq<Payload>)
    requires rest != []
    ensures SyncFrames(rest) == [Frame(Sync, rest[0])] + SyncFrames(rest[1..])
  {
  }

  /** Pushing the first remaining row moves it from what is to come to what has been enqueued. */
  lemma SyncShift(loaded: seq<Payload>, accepted: seq<Frame>, rest: seq<Payload>)
    requires rest != [] && SyncFrames(loaded) == Filter(accepted, IsSync()) + SyncFrames(rest)
    ensures SyncFrames(loaded) == Filter(accepted + [Frame(Sync, rest[0])], IsSync()) + SyncFrames(rest[1..])
  {
    FilterAppend(accepted, Frame(Sync, rest[0]), IsSync());
    hide Filter, SyncFrames;
    SyncFramesFirst(rest);
    ShiftFirst(Filter(accepted, IsSync()), Frame(Sync, rest[0]), SyncFrames(rest[1..]));
  }

  lemma SyncPushRows(e: Event, ch: Chan, t: Tasks)
    requires SyncInv(ch, t) && e.SyncPush? && Unpushed(t) != []
    ensures SyncInv(TaskStep(e, ch, t).0, TaskStep(e, ch, t).1)
    ensures Filter(TaskStep(e, ch, t).0.accepted, IsKick()) == Filter(ch.accepted, IsKick())
  {
    FilterAppend(ch.accepted, Frame(Sync, t.sync.rest[0]), IsKick());
    hide Filter, SyncFrames;
    if ch.open {
      SyncShift(t.loaded, ch.accepted, t.sync.rest);
    }
  }

  lemma SyncFieldFlow(ch: Chan, t: Tasks, t': Tasks)
    requires FlowInv(ch, t) && t'.fwd == t.fwd && t'.written == t.written && t'.lost == t.lost
    ensures FlowInv(ch, t')
  {
  }

  lemma SyncPushInv(e: Event, ch: Chan, t: Tasks, entry: bool)
    requires ConnInv(ch, t, entry) && e.SyncPush?
    ensures ConnInv(TaskStep(e, ch, t).0, TaskStep(e, ch, t).1, entry)
  {
    hide SyncInv, FlowInv, Filter, SyncFrames, IsKick;
    if Unpushed(t) != [] {
      SyncPushRows(e, ch, t);
      EnqueueFlow(ch, t, Frame(Sync, t.sync.rest[0]));
      SyncFieldFlow(Enqueue(ch, Frame(Sync, t.sync.rest[0])), t, TaskStep(e, ch, t).1);
    }
  }

  lemma SyncLoadInv(e: Event, ch: Chan, t: Tasks, entry: bool)
    requires ConnInv(ch, t, entry) && e.SyncLoad?
    ensures ConnInv(TaskStep(e, ch, t).0, TaskStep(e, ch, t).1, entry)
  {
    hide FlowInv, Filter;
    SyncFieldFlow(ch, t, TaskStep(e, ch, t).1);
    assert SyncFrames(t.loaded + e.rows) == SyncFrames(t.loaded) + SyncFrames(e.rows);
    assert SyncFrames([]) == [];
    if ch.open && Unpushed(t) == [] {
      assert Filter(ch.accepted, IsSync()) + [] == Filter(ch.accepted, IsSync());
    }
  }

  lemma TaskInv(e: Event, ch: Chan, t: Tasks, entry: bool)
    requires ConnInv(ch, t, entry) && IsTaskEvent(e)
    ensures ConnInv(TaskStep(e, ch, t).0, TaskStep(e, ch, t).1, entry)
  {
    if e.ReaderReply? {
      hide FlowInv, KickedInv, SyncInv, Enqueue;
      if t.reader.Reading? {
        EnqueueInv(ch, t, entry, Frame(Reply, e.payload));
      }
    } else if e.SyncPush? {
      hide ConnInv, TaskStep;
      SyncPushInv(e, ch, t, entry);
    } else if e.SyncLoad? {
      hide ConnInv, TaskStep;
      SyncLoadInv(e, ch, t, entry);
    } else if e.ReaderStop? || e.ReaderLeave? || e.SyncEnd? {
      hide ConnInv, TaskStep;
      EndsInv(e, ch, t, entry);
    } else {
      hide ConnInv, TaskStep;
      ForwarderInv(e, ch, t, entry);
    }
  }

  lemma RemoveInv(s: Sys, uid: Uid)
    requires Ok(s) && Inv(s)
    ensures Valid(Remove(s.reg, uid))
    ensures forall c :: 0 <= c < |s.tasks| ==>
              ConnInv(Remove(s.reg, uid).chans[c], s.tasks[c], IsEntry(s.(reg := Remove(s.reg, uid)), c))
  {
  }

  lemma NewConnInv(uid: Uid)
    ensures ConnInv(NewChan(uid), NewTasks(), true)
  {
  }

  lemma KickedOnce(ch: Chan, t: Tasks)
    requires ConnInv(ch, t, true)
    ensures !t.kicked
  {
  }

  lemma ConnectInv(s: Sys, uid: Uid)
    requires Ok(s) && Inv(s) && s.lock.Free?
    ensures Ok(ConnectStep(s, uid)) && Inv(ConnectStep(s, uid))
  {
    hide Enqueue, ConnInv;
    NewConnInv(uid);
    var s' := ConnectStep(s, uid);
    if uid in s.reg.online {
      var c := s.reg.online[uid];
      assert IsEntry(s, c);
      KickInv(s.reg.chans[c], s.tasks[c]);
      KickedOnce(s.reg.chans[c], s.tasks[c]);
      assert ConnInv(s'.reg.chans[c], s'.tasks[c], IsEntry(s', c));
    }
  }

  lemma ReleaseInv(ch: Chan, t: Tasks)
    requires ConnInv(ch, t, true)
    ensures ConnInv(ch.(senders := ch.senders - 1), t, false)
    ensures !ch.open ==> ConnInv(ch.(alive := false, senders := ch.senders - 1), t, false)
  {
  }

  lemma EntryHolds(ch: Chan, t: Tasks)
    requires ConnInv(ch, t, true)
    ensures ch.senders > 0
  {
  }

  lemma FinishInv(s: Sys)
    requires Ok(s) && Inv(s) && s.lock.Sending?
    ensures Inv(MapStep(s, SendFinish))
  {
    hide ConnInv, Enqueue;
    var c := s.reg.online[s.lock.uid];
    assert IsEntry(s, c);
    ReleaseInv(s.reg.chans[c], s.tasks[c]);
    EntryHolds(s.reg.chans[c], s.tasks[c]);
    EnqueueInv(s.reg.chans[c], s.tasks[c], true, Frame(Push, s.lock.payload));
  }

  lemma MapInv(s: Sys, e: Event)
    requires Ok(s) && Inv(s) && !IsTaskEvent(e)
    ensures Ok(MapStep(s, e)) && Inv(MapStep(s, e))
  {
    hide ConnInv, Insert, FinishSend;
    MapOk(s, e);
    match e
    case Connect(uid) => if s.lock.Free? { ConnectInv(s, uid); }
    case SendBegin(uid, p) => RemoveInv(s, uid);
    case SendFinish => if s.lock.Sending? { FinishInv(s); }
    case Logout(uid) => RemoveInv(s, uid);
  }

  lemma StepInv(s: Sys, e: Event)
    requires Ok(s) && Inv(s)
    ensures Inv(Step(s, e))
  {
    hide ConnInv, Enqueue;
    var s' := Step(s, e);
    if IsTaskEvent(e) {
      hide TaskStep;
      if e.c < |s.tasks| {
        TaskKeepsOwner(e, s.reg.chans[e.c], s.tasks[e.c]);
        TaskInv(e, s.reg.chans[e.c], s.tasks[e.c], IsEntry(s, e.c));
      }
    } else {
      MapInv(s, e);
    }
  }

  lemma {:induction false} RunInv(events: seq<Event>)
    ensures Inv(Run(INITIAL, events))
  {
    hide Step, ConnInv;
    if events != [] {
      RunInv(events[..|events| - 1]);
      StepInv(Run(INITIAL, events[..|events| - 1]), events[|events| - 1]);
    }
  }

  // ----- the newest connection owns the entry -----

  /** In every reachable state an entry belongs to the most recently inserted connection of its user. */
  lemma NewestOwnsEntry(events: seq<Event>, uid: Uid, c: nat)
    requires uid in Run(INITIAL, events).reg.online
    requires c < |Run(INITIAL, events).reg.chans| && Run(INITIAL, events).reg.chans[c].owner == uid
    ensures c <= Run(INITIAL, events).reg.online[uid]
    ensures IsEntry(Run(INITIAL, events), c) <==> c == Run(INITIAL, events).reg.online[uid]
  {
    hide Run;
  }

  /**
    Exactly which steps change the entry of a user: its own connect, its own logout, a send
    to it that finds the alive flag lowered, and a send to it that finds the receiver gone.
    No step of any connection's tasks does.
   */
  lemma EntryChangesOnlyBy(s: Sys, e: Event, uid: Uid)
    requires Ok(s)
    ensures var before, after := s.reg.online, Step(s, e).reg.online;
            (uid in before <==> uid in after) && (uid in before ==> before[uid] == after[uid])
            <==> !(|| (e.Connect? && e.uid == uid && s.lock.Free?)
                   || (e.Logout? && e.uid == uid && s.lock.Free? && uid in before)
                   || (e.SendBegin? && e.uid == uid && s.lock.Free? && uid in before && !s.reg.chans[before[uid]].alive)
                   || (e.SendFinish? && s.lock.Sending? && s.lock.uid == uid && !s.reg.chans[before[uid]].open))
  {
  }

  // ----- delivered is never claimed for a dead connection -----

  /** The map lock is held by a send that has already passed the alive check of connection c. */
  predicate SendUnderWay(s: Sys, c: nat) {
    s.lock.Sending? && s.lock.uid in s.reg.online && s.reg.online[s.lock.uid] == c
  }

  predicate OwnTraffic(frames: seq<Frame>) {
    forall i | 0 <= i < |frames| :: frames[i].origin == Reply || frames[i].origin == Sync
  }

  /** A task step appends at most one reply or sync push to its own channel and never revives it. */
  lemma TaskAppends(e: Event, ch: Chan, t: Tasks)
    ensures var ch' := TaskStep(e, ch, t).0;
            && (ch'.accepted == ch.accepted
                || exists f: Frame :: f.origin != Push && f.origin != Kick && ch'.accepted == ch.accepted + [f])
            && (ch'.alive ==> ch.alive)
  {
  }

  /** A map step reaches a channel only by a send under way to it or by replacing its entry. */
  lemma MapAppends(s: Sys, e: Event, c: nat)
    requires Ok(s) && c < |s.reg.chans| && !IsTaskEvent(e)
    ensures var s' := MapStep(s, e);
            && |s.reg.chans| <= |s'.reg.chans| && s'.reg.chans[c].owner == s.reg.chans[c].owner
            && (s'.reg.chans[c].alive ==> s.reg.chans[c].alive)
            && (IsEntry(s', c) ==> IsEntry(s, c))
            && (s'.reg.chans[c].accepted == s.reg.chans[c].accepted
                || (e.SendFinish? && SendUnderWay(s, c))
                || (IsEntry(s, c) && s'.reg.chans[c].accepted == s.reg.chans[c].accepted + [KICK_FRAME]))
            && (SendUnderWay(s', c) ==> SendUnderWay(s, c) || (e.SendBegin? && s.reg.chans[c].alive))
  {
    match e
    case Connect(_) =>
    case SendBegin(_, _) =>
    case SendFinish =>
    case Logout(_) =>
  }

  lemma PushFreeAppends(accepted: seq<Frame>)
    ensures forall f: Frame :: f.origin != Push ==> Filter(accepted + [f], IsPush()) == Filter(accepted, IsPush())
  {
  }

  lemma DeadStep(s: Sys, e: Event, c: nat)
    requires Ok(s) && c < |s.reg.chans| && !s.reg.chans[c].alive && !SendUnderWay(s, c)
    ensures var s' := Step(s, e);
            && |s.reg.chans| <= |s'.reg.chans| && !s'.reg.chans[c].alive && !SendUnderWay(s', c)
            && Filter(s'.reg.chans[c].accepted, IsPush()) == Filter(s.reg.chans[c].accepted, IsPush())
  {
    hide Filter, TaskStep, MapStep, IsEntry;
    PushFreeAppends(s.reg.chans[c].accepted);
    if IsTaskEvent(e) {
      TaskAppends(e, s.reg.chans[c], s.tasks[c]);
    } else {
      MapAppends(s, e, c);
    }
  }

  /**
    Once a reader or forwarder has stored alive = false, no send_to_user that checks the flag
    afterwards ever delivers to that connection, in any continuation.
   */
  lemma {:induction false} DeadConnectionGetsNoPush(s: Sys, events: seq<Event>, c: nat)
    requires Ok(s) && c < |s.reg.chans| && !s.reg.chans[c].alive && !SendUnderWay(s, c)
    ensures var t := Run(s, events);
            && |s.reg.chans| <= |t.reg.chans| && !t.reg.chans[c].alive && !SendUnderWay(t, c)
            && Filter(t.reg.chans[c].accepted, IsPush()) == Filter(s.reg.chans[c].accepted, IsPush())
  {
    hide Step, Filter, SendUnderWay;
    if events != [] {
      DeadConnectionGetsNoPush(s, events[..|events| - 1], c);
      DeadStep(Run(s, events[..|events| - 1]), events[|events| - 1], c);
    }
  }

  /** The step delivers a send to connection c: past the alive check, receiver still open. */
  ghost predicate Delivers(s: Sys, e: Event, c: nat) {
    e.SendFinish? && SendUnderWay(s, c) && c < |s.reg.chans| && s.reg.chans[c].open
  }

  function Pushes(ch: Chan): seq<Frame> {
    Filter(ch.accepted, IsPush())
  }

  lemma FinishDelivers(s: Sys, c: nat)
    requires Ok(s) && c < |s.reg.chans| && SendUnderWay(s, c)
    ensures var s' := Step(s, SendFinish);
            && |s.reg.chans| == |s'.reg.chans| && (s'.reg.chans[c].alive ==> s.reg.chans[c].alive)
            && s'.reg.chans[c].accepted
               == s.reg.chans[c].accepted + (if s.reg.chans[c].open then [Frame(Push, s.lock.payload)] else [])
            && s'.lock.Free?
  {
  }

  /** While a send is under way, the other steps add no push. */
  lemma WaitingStep(s: Sys, e: Event, c: nat)
    requires Ok(s) && c < |s.reg.chans| && !s.reg.chans[c].alive && SendUnderWay(s, c) && !e.SendFinish?
    ensures var s' := Step(s, e);
            && |s.reg.chans| <= |s'.reg.chans| && !s'.reg.chans[c].alive
            && Pushes(s'.reg.chans[c]) == Pushes(s.reg.chans[c])
  {
    if IsTaskEvent(e) {
      PushFreeAppends(s.reg.chans[c].accepted);
      TaskAppends(e, s.reg.chans[c], s.tasks[c]);
    }
    hide TaskStep, Filter;
  }

  /** For a connection already dead, exactly such a step adds a push, and it is that of the send under way. */
  lemma DeadStepIff(s: Sys, e: Event, c: nat)
    requires Ok(s) && c < |s.reg.chans| && !s.reg.chans[c].alive
    ensures var s' := Step(s, e);
            && |s.reg.chans| <= |s'.reg.chans| && !s'.reg.chans[c].alive
            && Pushes(s'.reg.chans[c])
               == Pushes(s.reg.chans[c]) + (if Delivers(s, e, c) then [Frame(Push, s.lock.payload)] else [])
  {
    if !SendUnderWay(s, c) {
      DeadStep(s, e, c);
    } else if e.SendFinish? {
      FinishDelivers(s, c);
      FilterAppend(s.reg.chans[c].accepted, Frame(Push, s.lock.payload), IsPush());
    } else {
      WaitingStep(s, e, c);
    }
    hide Step, SendUnderWay, Filter;
  }

  ghost predicate DeliversAt(s: Sys, events: seq<Event>, k: nat, c: nat)
    requires Ok(s)
  {
    k < |events| && Delivers(Run(s, events[..k]), events[k], c)
  }

  lemma DeliversLater(s: Sys, events: seq<Event>, c: nat)
    requires Ok(s) && events != []
    ensures var m := |events| - 1;
            (exists k :: DeliversAt(s, events, k, c))
            <==> (exists k :: DeliversAt(s, events[..m], k, c)) || Delivers(Run(s, events[..m]), events[m], c)
  {
    hide Run, Delivers;
    var m := |events| - 1;
    forall k: nat | k < m ensures DeliversAt(s, events, k, c) <==> DeliversAt(s, events[..m], k, c) {
      assert events[..m][..k] == events[..k];
    }
    assert DeliversAt(s, events, m, c) <==> Delivers(Run(s, events[..m]), events[m], c);
  }

  /**
    Over any continuation, a connection whose alive flag has fallen gains a push if and only if
    some send finishes that had passed the alive check before and finds the receiver still open.
   */
  lemma {:induction false} DeadConnectionGetsPushIff(s: Sys, events: seq<Event>, c: nat)
    requires Ok(s) && c < |s.reg.chans| && !s.reg.chans[c].alive
    ensures var t := Run(s, events);
            && |s.reg.chans| <= |t.reg.chans| && !t.reg.chans[c].alive
            && |Pushes(s.reg.chans[c])| <= |Pushes(t.reg.chans[c])|
            && (Pushes(t.reg.chans[c]) != Pushes(s.reg.chans[c]) <==> exists k :: DeliversAt(s, events, k, c))
  {
    if events != [] {
      var before := events[..|events| - 1];
      DeadConnectionGetsPushIff(s, before, c);
      DeadStepIff(Run(s, before), events[|events| - 1], c);
      DeliversLater(s, events, c);
      hide Step, Pushes, Delivers, DeliversAt;
    }
  }

  /**
    The proviso is exact: a send already past the check, whose receiver is still open, delivers
    even though the reader has stored alive = false in between.
   */
  lemma SendPastTheCheckStillDelivers(s: Sys, c: nat)
    requires Ok(s) && c < |s.reg.chans| && SendUnderWay(s, c)
    requires s.reg.chans[c].open && s.tasks[c].reader.Reading?
    ensures var t := Run(s, [ReaderStop(c), SendFinish]);
            && c < |t.reg.chans| && !t.reg.chans[c].alive
            && t.reg.chans[c].accepted == s.reg.chans[c].accepted + [Frame(Push, s.lock.payload)]
  {
    var events := [ReaderStop(c), SendFinish];
    assert events[..1] == [ReaderStop(c)] && events[..1][..0] == [];
    var stopped := Step(s, ReaderStop(c));
    assert Run(s, events[..1]) == stopped;
    assert SendUnderWay(stopped, c) && stopped.reg.chans[c].open;
    assert Run(s, events) == Step(stopped, SendFinish);
  }

  lemma RunOneMore(events: seq<Event>, e: Event)
    ensures Run(INITIAL, events + [e]) == Step(Run(INITIAL, events), e)
  {
    assert (events + [e])[..|events|] == events;
  }

  lemma SendChecked(uid: Uid, p: Payload) returns (events: seq<Event>)
    ensures Run(INITIAL, events) == Sys(Registry([NewChan(uid)], map[uid := 0]), [NewTasks()], Sending(uid, p))
  {
    RunOneMore([], Connect(uid));
    RunOneMore([] + [Connect(uid)], SendBegin(uid, p));
    events := [] + [Connect(uid)] + [SendBegin(uid, p)];
    assert Run(INITIAL, []) == INITIAL;
    hide Run;
    assert Step(INITIAL, Connect(uid)) == Sys(Registry([NewChan(uid)], map[uid := 0]), [NewTasks()], Free);
  }

  /** And it is reached: a reader stops between the two halves of a send to its connection. */
  lemma LateDeliveryHappens(uid: Uid, p: Payload) returns (events: seq<Event>)
    ensures |Run(INITIAL, events).reg.chans| == 1
    ensures var ch := Run(INITIAL, events).reg.chans[0];
            ch.owner == uid && !ch.alive && ch.accepted == [Frame(Push, p)] && ch.queue == [Frame(Push, p)]
  {
    var before := SendChecked(uid, p);
    RunOneMore(before, ReaderStop(0));
    RunOneMore(before + [ReaderStop(0)], SendFinish);
    events := before + [ReaderStop(0)] + [SendFinish];
    hide Run;
  }

  /** What a finished send means, whatever ran between its halves. */
  lemma FinishedSendMeaning(s: Sys)
    requires Ok(s) && s.lock.Sending?
    ensures var s' := Step(s, SendFinish);
            var c := s.reg.online[s.lock.uid];
            if s.reg.chans[c].open
            then && s'.reg.online == s.reg.online
                 && s'.reg.chans == s.reg.chans[c := Enqueue(s.reg.chans[c], Frame(Push, s.lock.payload))]
                 && s'.reg.chans[c].queue == s.reg.chans[c].queue + [Frame(Push, s.lock.payload)]
            else s'.reg.online == s.reg.online - {s.lock.uid} && SameQueues(s.reg.chans, s'.reg.chans)
  {
  }

  lemma BothHalves(s: Sys, uid: Uid, p: Payload)
    requires Ok(s) && s.lock.Free?
    ensures Step(Step(s, SendBegin(uid, p)), SendFinish) == s.(reg := OnlineUsers.Send(s.reg, uid, Frame(Push, p)))
  {
  }

  /** With nothing between its halves, a send is send_to_user as one operation. */
  lemma SendIsItsTwoHalves(s: Sys, uid: Uid, p: Payload)
    requires Ok(s) && s.lock.Free?
    ensures Run(s, [SendBegin(uid, p), SendFinish])
            == s.(reg := OnlineUsers.Send(s.reg, uid, Frame(Push, p)))
  {
    var events := [SendBegin(uid, p), SendFinish];
    assert events[..1] == [SendBegin(uid, p)] && events[..1][..0] == [];
    assert Run(s, events[..1]) == Step(s, SendBegin(uid, p));
    assert Run(s, events) == Step(Step(s, SendBegin(uid, p)), SendFinish);
    BothHalves(s, uid, p);
    hide Step;
  }

  // ----- kick and isolation -----

  lemma ReplacedStep(s: Sys, e: Event, c: nat)
    requires Ok(s) && c < |s.reg.chans| && !IsEntry(s, c)
    ensures var s' := Step(s, e);
            && |s.reg.chans| <= |s'.reg.chans| && !IsEntry(s', c)
            && s.reg.chans[c].accepted <= s'.reg.chans[c].accepted
            && OwnTraffic(s'.reg.chans[c].accepted[|s.reg.chans[c].accepted|..])
  {
    hide TaskStep, MapStep;
    if IsTaskEvent(e) {
      TaskAppends(e, s.reg.chans[c], s.tasks[c]);
      if e.c < |s.tasks| {
        TaskKeepsOwner(e, s.reg.chans[e.c], s.tasks[e.c]);
      }
    } else {
      MapAppends(s, e, c);
    }
  }

  /** A connection without entry never regains it, and from then on only its own replies and sync pushes reach it. */
  lemma {:induction false} ReplacedIsIsolated(s: Sys, events: seq<Event>, c: nat)
    requires Ok(s) && c < |s.reg.chans| && !IsEntry(s, c)
    ensures var t := Run(s, events);
            && |s.reg.chans| <= |t.reg.chans| && !IsEntry(t, c)
            && s.reg.chans[c].accepted <= t.reg.chans[c].accepted
            && OwnTraffic(t.reg.chans[c].accepted[|s.reg.chans[c].accepted|..])
  {
    hide Step, IsEntry;
    if events != [] {
      var before := events[..|events| - 1];
      var m := Run(s, before);
      ReplacedIsIsolated(s, before, c);
      ReplacedStep(m, events[|events| - 1], c);
      var t := Run(s, events);
      var a, b, d := s.reg.chans[c].accepted, m.reg.chans[c].accepted, t.reg.chans[c].accepted;
      assert d[|a|..] == b[|a|..] + d[|b|..];
    }
  }

  lemma KickCount(ch: Chan, t: Tasks, entry: bool)
    requires ConnInv(ch, t, entry)
    ensures |Filter(ch.accepted, IsKick())| == Holds(t.kicked)
  {
  }

  lemma {:induction false} OwnTrafficAddsNoKick(a: seq<Frame>, more: seq<Frame>)
    requires OwnTraffic(more)
    ensures Filter(a + more, IsKick()) == Filter(a, IsKick())
  {
    if more == [] {
      assert a + more == a;
    } else {
      var init, last := more[..|more| - 1], more[|more| - 1];
      OwnTrafficAddsNoKick(a, init);
      FilterAppend(a + init, last, IsKick());
      assert a + more == (a + init) + [last];
    }
  }

  /**
    A duplicate login: the connection whose entry is replaced gets exactly one "logged in
    elsewhere" frame if its receiver is still open and none otherwise, for ever after.
   */
  lemma KickedExactlyOnce(events: seq<Event>, uid: Uid, more: seq<Event>)
    requires var s := Run(INITIAL, events); s.lock.Free? && uid in s.reg.online
    ensures var s := Run(INITIAL, events);
            var c := s.reg.online[uid];
            var t := Run(Step(s, Connect(uid)), more);
            && c < |t.reg.chans|
            && |Filter(t.reg.chans[c].accepted, IsKick())| == Holds(s.reg.chans[c].open)
            && (s.reg.chans[c].open ==>
                  Step(s, Connect(uid)).reg.chans[c].accepted == s.reg.chans[c].accepted + [Frame(Kick, LoggedInElsewhere)])
  {
    hide Run, ConnInv, Filter;
    var s := Run(INITIAL, events);
    var c := s.reg.online[uid];
    var s1 := Step(s, Connect(uid));
    RunInv(events);
    StepInv(s, Connect(uid));
    assert IsEntry(s, c);
    KickedOnce(s.reg.chans[c], s.tasks[c]);
    assert !IsEntry(s1, c) && s1.tasks[c].kicked == s.reg.chans[c].open;
    KickCount(s1.reg.chans[c], s1.tasks[c], false);
    ReplacedIsIsolated(s1, more, c);
    var a, d := s1.reg.chans[c].accepted, Run(s1, more).reg.chans[c].accepted;
    OwnTrafficAddsNoKick(a, d[|a|..]);
    assert d == a + d[|a|..];
  }

  // ----- order and teardown -----

  /** Frames written, at most one in hand or lost, and the queue are the frames enqueued, in order. */
  lemma FramesStayInOrder(events: seq<Event>, c: nat)
    requires c < |Run(INITIAL, events).tasks|
    ensures var (ch, t) := (Run(INITIAL, events).reg.chans[c], Run(INITIAL, events).tasks[c]);
            && ch.accepted == t.written + Hand(t) + t.lost + ch.queue
            && |Hand(t) + t.lost| <= 1
            && (Exited(t) && t.lost == [] ==> t.written == ch.accepted)
  {
    hide Run, Filter;
    RunInv(events);
  }

  /** A sync task that finished while the receiver was open has enqueued everything it loaded, in order. */
  lemma FinishedSyncDeliveredAll(events: seq<Event>, c: nat)
    requires c < |Run(INITIAL, events).tasks|
    ensures var (ch, t) := (Run(INITIAL, events).reg.chans[c], Run(INITIAL, events).tasks[c]);
            t.sync.Finished? && ch.open ==> Filter(ch.accepted, IsSync()) == SyncFrames(t.loaded)
  {
    hide Run, Filter;
    RunInv(events);
  }

  /** Nobody can send to the connection any more: reader and sync ended, entry gone. */
  predicate Abandoned(s: Sys, c: nat)
    requires c < |s.reg.chans| && c < |s.tasks|
  {
    s.tasks[c].reader.Left? && s.tasks[c].sync.Finished? && !IsEntry(s, c)
  }

  /** The forwarder's end-of-channel exit is possible exactly when the connection is abandoned and drained. */
  lemma EndOfChannelIff(events: seq<Event>, c: nat)
    requires c < |Run(INITIAL, events).tasks|
    ensures var s := Run(INITIAL, events);
            s.tasks[c].fwd.Idle? ==>
              (Step(s, FwdEnd(c)).tasks[c].fwd.Broken? <==> Abandoned(s, c) && s.reg.chans[c].queue == [])
  {
    hide Run, Filter, FlowInv, KickedInv, SyncInv;
    RunInv(events);
  }

  predicate ForwarderEvent(e: Event, c: nat) {
    (e.FwdRecv? || e.FwdWrite? || e.FwdEnd? || e.FwdMark? || e.FwdDrop?) && e.c == c
  }

  /** Two steps per queued frame, one for a frame in hand, three to leave, mark and drop. */
  function Work(ch: Chan, t: Tasks): nat {
    match t.fwd
    case Idle => 2 * |ch.queue| + 3
    case Writing(_) => 2 * |ch.queue| + 4
    case Broken => 2
    case Marked => 1
    case Gone => 0
  }

  /** A map step leaves a connection without entry alone. */
  lemma MapLeaves(s: Sys, e: Event, c: nat)
    requires Ok(s) && c < |s.tasks| && !IsEntry(s, c) && !IsTaskEvent(e)
    ensures var s' := MapStep(s, e);
            && c < |s'.tasks| == |s'.reg.chans|
            && s'.reg.chans[c] == s.reg.chans[c] && s'.tasks[c] == s.tasks[c] && !IsEntry(s', c)
  {
  }

  /** Without reader and sync, task steps only take work away. */
  lemma TaskWork(e: Event, ch: Chan, t: Tasks)
    requires t.reader.Left? && t.sync.Finished? && IsTaskEvent(e)
    ensures var (ch', t') := TaskStep(e, ch, t);
            t'.reader.Left? && t'.sync.Finished? && Work(ch', t') <= Work(ch, t)
  {
  }

  lemma AbandonedStep(s: Sys, e: Event, c: nat)
    requires Ok(s) && c < |s.tasks| && Abandoned(s, c)
    ensures var s' := Step(s, e);
            && c < |s'.tasks| && Abandoned(s', c)
            && Work(s'.reg.chans[c], s'.tasks[c]) <= Work(s.reg.chans[c], s.tasks[c])
  {
    hide TaskStep, MapStep, Work;
    if IsTaskEvent(e) {
      if e.c < |s.tasks| {
        TaskKeepsOwner(e, s.reg.chans[e.c], s.tasks[e.c]);
      }
      TaskWork(e, s.reg.chans[c], s.tasks[c]);
    } else {
      MapLeaves(s, e, c);
    }
  }

  /** An abandoned forwarder that has not finished can always take a step. */
  lemma AbandonedCanStep(s: Sys, c: nat)
    requires Ok(s) && Inv(s) && c < |s.tasks| && Abandoned(s, c) && !s.tasks[c].fwd.Gone?
    ensures exists e :: ForwarderEvent(e, c) && Step(s, e).tasks[c] != s.tasks[c]
  {
    hide FlowInv, KickedInv, SyncInv;
    var t := s.tasks[c];
    assert ConnInv(s.reg.chans[c], t, false);
    var e :=
      if t.fwd.Idle? then (if s.reg.chans[c].queue == [] then FwdEnd(c) else FwdRecv(c))
      else if t.fwd.Writing? then FwdWrite(c, true)
      else if t.fwd.Broken? then FwdMark(c)
      else FwdDrop(c);
    assert ForwarderEvent(e, c) && Step(s, e).tasks[c] != t;
  }

  /** How many steps of c's forwarder the run really contained. */
  ghost function ForwarderSteps(s: Sys, events: seq<Event>, c: nat): nat
    requires Ok(s)
  {
    if events == [] then 0
    else
      var before, e := Run(s, events[..|events| - 1]), events[|events| - 1];
      ForwarderSteps(s, events[..|events| - 1], c)
      + (if ForwarderEvent(e, c) && c < |before.tasks| && Step(before, e).tasks[c] != before.tasks[c] then 1 else 0)
  }

  lemma AbandonedTick(s: Sys, e: Event, c: nat)
    requires Ok(s) && c < |s.tasks| && ForwarderEvent(e, c) && Step(s, e).tasks[c] != s.tasks[c]
    ensures Work(Step(s, e).reg.chans[c], Step(s, e).tasks[c]) < Work(s.reg.chans[c], s.tasks[c])
  {
  }

  /**
    Teardown ends: once the connection is abandoned, in any continuation its forwarder takes at
    most 2 * queue + 4 steps of its own before the receiver is dropped.
   */
  lemma {:induction false} AbandonedForwarderFinishes(s: Sys, events: seq<Event>, c: nat)
    requires Ok(s) && Inv(s) && c < |s.tasks| && Abandoned(s, c)
    ensures var t := Run(s, events);
            && Inv(t) && c < |t.tasks| && Abandoned(t, c)
            && ForwarderSteps(s, events, c) + Work(t.reg.chans[c], t.tasks[c]) <= Work(s.reg.chans[c], s.tasks[c])
  {
    hide Step, Inv, Abandoned, Work, ForwarderEvent;
    if events != [] {
      var before, e := events[..|events| - 1], events[|events| - 1];
      AbandonedForwarderFinishes(s, before, c);
      var m := Run(s, before);
      StepInv(m, e);
      AbandonedStep(m, e, c);
      if ForwarderEvent(e, c) && Step(m, e).tasks[c] != m.tasks[c] {
        AbandonedTick(m, e, c);
      }
    }
  }
}
