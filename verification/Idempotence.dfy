/**
  Idempotent persistence by client_msg_id, for both message tables
  (`persist_chat_message` and `persist_group_message` share the same shape).
 */
module Idempotence {
  import opened Base
  import opened Schema

  datatype Request<+B> = Request(cid: Option<string>, body: B)

  /** The table after a whole trace of requests on an empty table. */
  function PersistAll<B>(reqs: seq<Request<B>>): Table<B> {
    if reqs == [] then Table([], 1)
    else
      var last := reqs[|reqs| - 1];
      Persist(PersistAll(reqs[..|reqs| - 1]), last.cid, last.body).0
  }

  /** The id returned to the k-th request. */
  function Answer<B>(reqs: seq<Request<B>>, k: nat): nat
    requires k < |reqs|
  {
    Persist(PersistAll(reqs[..k]), reqs[k].cid, reqs[k].body).1
  }

  /** Two requests are meant to be the same message when they carry the same client id. */
  predicate SameMessage<B>(a: Request<B>, b: Request<B>) {
    a.cid.Some? && a.cid == b.cid
  }

  /** No earlier request carried the same client id. */
  ghost predicate First<B(!new)>(reqs: seq<Request<B>>, k: nat)
    requires k < |reqs|
  {
    forall j :: 0 <= j < k ==> !SameMessage(reqs[j], reqs[k])
  }

  /** One request: either a new last row, or the existing row with that client id. */
  lemma PersistOutcome<B(!new)>(t: Table<B>, cid: Option<string>, body: B)
    requires ValidTable(t)
    ensures var (t', id) := Persist(t, cid, body);
            if cid.Some? && exists i :: 0 <= i < |t.rows| && t.rows[i].clientId == cid
            then t'.rows == t.rows && exists i :: 0 <= i < |t.rows| && t.rows[i].clientId == cid && t.rows[i].id == id
            else t'.rows == t.rows + [Row(id, cid, body)] && id == t.next
    ensures ValidTable(Persist(t, cid, body).0) && Persist(t, cid, body).0.next == t.next + 1
  {
  }

  lemma {:induction false} TraceValid<B(!new)>(reqs: seq<Request<B>>)
    ensures ValidTable(PersistAll(reqs))
    ensures forall i :: 0 <= i < |PersistAll(reqs).rows| && PersistAll(reqs).rows[i].clientId.Some? ==>
              exists k :: 0 <= k < |reqs| && reqs[k].cid == PersistAll(reqs).rows[i].clientId
  {
    if reqs != [] {
      var before, last := reqs[..|reqs| - 1], reqs[|reqs| - 1];
      hide Persist;
      TraceValid(before);
      PersistOutcome(PersistAll(before), last.cid, last.body);
      var rows := PersistAll(reqs).rows;
      forall i | 0 <= i < |rows| && rows[i].clientId.Some?
        ensures exists k :: 0 <= k < |reqs| && reqs[k].cid == rows[i].clientId
      {
        if i < |PersistAll(before).rows| {
          assert rows[i] == PersistAll(before).rows[i];
          var k :| 0 <= k < |before| && before[k].cid == rows[i].clientId;
          assert reqs[k] == before[k];
        } else {
          assert reqs[|reqs| - 1].cid == rows[i].clientId;
        }
      }
    }
  }

  /** Every answered id is, and stays, the key of a row with the request's client id and the first content. */
  lemma {:induction false} AnswerIsStored<B(!new)>(reqs: seq<Request<B>>, k: nat) returns (i: nat)
    requires k < |reqs|
    ensures i < |PersistAll(reqs).rows|
    ensures PersistAll(reqs).rows[i].id == Answer(reqs, k)
    ensures PersistAll(reqs).rows[i].clientId == reqs[k].cid
    ensures First(reqs, k) ==> PersistAll(reqs).rows[i].body == reqs[k].body
  {
    hide Persist;
    var before, last := reqs[..|reqs| - 1], reqs[|reqs| - 1];
    TraceValid(before);
    PersistOutcome(PersistAll(before), last.cid, last.body);
    if k == |reqs| - 1 {
      var t := PersistAll(before);
      if last.cid.Some? && exists n :: 0 <= n < |t.rows| && t.rows[n].clientId == last.cid {
        i :| 0 <= i < |t.rows| && t.rows[i].clientId == last.cid && t.rows[i].id == Answer(reqs, k);
        var j :| 0 <= j < |before| && before[j].cid == t.rows[i].clientId;
        assert SameMessage(reqs[j], reqs[k]);
      } else {
        i := |t.rows|;
      }
    } else {
      assert before[..k] == reqs[..k] && before[k] == reqs[k];
      i := AnswerIsStored(before, k);
      assert First(reqs, k) ==> First(before, k);
    }
  }

  /** Retries, and only retries, share a row: equal answers if and only if the same request or client id. */
  lemma SameAnswerIffSameMessage<B(!new)>(reqs: seq<Request<B>>, j: nat, k: nat)
    requires j < k < |reqs|
    ensures Answer(reqs, j) == Answer(reqs, k) <==> SameMessage(reqs[j], reqs[k])
  {
    hide Persist, PersistAll;
    var upTo := reqs[..k];
    var t := PersistAll(upTo);
    TraceValid(upTo);
    PersistOutcome(t, reqs[k].cid, reqs[k].body);
    assert upTo[..j] == reqs[..j] && upTo[j] == reqs[j];
    var i := AnswerIsStored(upTo, j);
  }

  /** Whatever is retried, the row behind an answer keeps the content of the first request. */
  lemma FirstContentWins<B(!new)>(reqs: seq<Request<B>>, j: nat, k: nat)
    requires j <= k < |reqs| && First(reqs, j) && (j == k || SameMessage(reqs[j], reqs[k]))
    ensures Row(Answer(reqs, k), reqs[k].cid, reqs[j].body) in PersistAll(reqs).rows
  {
    hide Persist, PersistAll;
    var i := AnswerIsStored(reqs, j);
    if j < k {
      SameAnswerIffSameMessage(reqs, j, k);
    }
    assert PersistAll(reqs).rows[i] in PersistAll(reqs).rows;
  }

  /**
    client_msg_id is unique across all senders and conversations, so an acknowledged request
    is stored as sent exactly when the first request with its client id said the same thing.
   */
  lemma AcknowledgedAsSent<B(!new)>(reqs: seq<Request<B>>, j: nat, k: nat)
    requires j <= k < |reqs| && First(reqs, j) && (j == k || SameMessage(reqs[j], reqs[k]))
    ensures Row(Answer(reqs, k), reqs[k].cid, reqs[k].body) in PersistAll(reqs).rows
            <==> reqs[j].body == reqs[k].body
  {
    hide Persist, PersistAll;
    FirstContentWins(reqs, j, k);
    TraceValid(reqs);
    var rows := PersistAll(reqs).rows;
    var a := Row(Answer(reqs, k), reqs[k].cid, reqs[j].body);
    var b := Row(Answer(reqs, k), reqs[k].cid, reqs[k].body);
    var m :| 0 <= m < |rows| && rows[m] == a;
    if b in rows {
      var n :| 0 <= n < |rows| && rows[n] == b;
      assert m == n;
    }
  }

  function ClientIds<B>(reqs: seq<Request<B>>): set<string> {
    set k | 0 <= k < |reqs| && reqs[k].cid.Some? :: reqs[k].cid.value
  }

  function Anonymous<B>(reqs: seq<Request<B>>): nat {
    if reqs == [] then 0
    else Anonymous(reqs[..|reqs| - 1]) + (if reqs[|reqs| - 1].cid.None? then 1 else 0)
  }

  /** Rows stored = distinct client ids + requests without one. */
  lemma {:induction false} RowsCountMessages<B(!new)>(reqs: seq<Request<B>>)
    ensures |PersistAll(reqs).rows| == |ClientIds(reqs)| + Anonymous(reqs)
  {
    hide Persist;
    if reqs != [] {
      var before, last := reqs[..|reqs| - 1], reqs[|reqs| - 1];
      var t := PersistAll(before);
      RowsCountMessages(before);
      TraceValid(before);
      PersistOutcome(t, last.cid, last.body);
      hide ValidTable;
      if last.cid.None? {
        assert ClientIds(reqs) == ClientIds(before);
      } else {
        assert ClientIds(reqs) == ClientIds(before) + {last.cid.value};
        if last.cid.value in ClientIds(before) {
          var k :| 0 <= k < |before| && before[k].cid.Some? && before[k].cid.value == last.cid.value;
          var i := AnswerIsStored(before, k);
          assert t.rows[i].clientId == last.cid;
        }
      }
    }
  }
}
