/** Hashing a journal table that was written before events carried hashes
    (`_backfill_event_hashes` of iat/buyer_agent_scheduler.py). */
module JournalBackfill {
  import opened Wrappers
  import opened EventChain
  import opened BuyerAgentJournal
  import Runs = BuyerAgentRuns

  /** The table in which every event has the hashes that appending the events one by one gives. */
  function Rechained(h: Hasher<Body>, rows: seq<Row>): seq<Row> {
    if rows == [] then []
    else
      var front := Rechained(h, rows[..|rows| - 1]);
      var last := rows[|rows| - 1];
      front + [Chained(h, Journal(front, last.body.decisionId), last.eventId, last.body)]
  }

  /** Same events in the same places, whatever their stored hashes. */
  ghost predicate SameEvents(rows: seq<Row>, others: seq<Row>) {
    |rows| == |others| && forall k :: 0 <= k < |rows| ==>
      rows[k].eventId == others[k].eventId && rows[k].body == others[k].body
  }

  lemma {:induction false} RechainedLinks(h: Hasher<Body>, rows: seq<Row>, id: string)
    ensures SameEvents(rows, Rechained(h, rows))
    ensures Linked(h, Journal(Rechained(h, rows), id))
  {
    if rows != [] {
      var front := Rechained(h, rows[..|rows| - 1]);
      var last := rows[|rows| - 1];
      RechainedLinks(h, rows[..|rows| - 1], id);
      var all := Rechained(h, rows);
      assert all[..|all| - 1] == front;
      if last.body.decisionId == id {
        AppendKeepsLinks(h, Journal(front, id), last.eventId, last.body);
      }
      forall k | 0 <= k < |rows| ensures rows[k].eventId == all[k].eventId && rows[k].body == all[k].body {
        if k < |rows| - 1 {
          assert rows[k] == rows[..|rows| - 1][k] && all[k] == front[k];
        }
      }
    }
  }

  ghost predicate AllLinked(h: Hasher<Body>, rows: seq<Row>) {
    forall id {:trigger Journal(rows, id)} :: Linked(h, Journal(rows, id))
  }

  /** The last event ends its own journal, whose front is that of the table without it. */
  lemma LastEndsItsJournal(events: seq<Row>)
    requires events != []
    ensures var n := |events| - 1;
      var journal := Journal(events, events[n].body.decisionId);
      && journal == Journal(events[..n], events[n].body.decisionId) + [events[n]]
      && journal[..|journal| - 1] == Journal(events[..n], events[n].body.decisionId)
  {
  }

  lemma FrontStaysLinked(h: Hasher<Body>, rows: seq<Row>)
    requires rows != [] && AllLinked(h, rows)
    ensures AllLinked(h, rows[..|rows| - 1])
  {
    var n := |rows| - 1;
    forall id ensures Linked(h, Journal(rows[..n], id)) {
      assert Linked(h, Journal(rows, id));
      if rows[n].body.decisionId == id {
        LinkedStepwise(h, Journal(rows, id));
        LastEndsItsJournal(rows);
      }
    }
  }

  lemma LastIsChained(h: Hasher<Body>, rows: seq<Row>)
    requires rows != [] && AllLinked(h, rows)
    ensures var n := |rows| - 1;
      var last := rows[n];
      last == Chained(h, Journal(rows[..n], last.body.decisionId), last.eventId, last.body)
  {
    var id := rows[|rows| - 1].body.decisionId;
    assert Linked(h, Journal(rows, id));
    LinkedStepwise(h, Journal(rows, id));
    LastEndsItsJournal(rows);
  }

  /** The backfilled table is the only one with these events in which every journal is unbroken:
      appending the same events one by one would have stored exactly these hashes. */
  lemma {:induction false} RechainedIsUnique(h: Hasher<Body>, rows: seq<Row>, other: seq<Row>)
    requires SameEvents(rows, other)
    requires AllLinked(h, other)
    ensures other == Rechained(h, rows)
  {
    if rows != [] {
      var n := |rows| - 1;
      FrontStaysLinked(h, other);
      RechainedIsUnique(h, rows[..n], other[..n]);
      LastIsChained(h, other);
      assert rows[n].body == other[n].body && rows[n].eventId == other[n].eventId;
      assert other == other[..n] + [other[n]];
    }
  }

  /** The two dictionaries hold head and length of every journal that is not empty. */
  ghost predicate Tallied(done: seq<Row>, heads: map<string, Digest>, counts: map<string, nat>) {
    && heads.Keys == counts.Keys
    && forall id {:trigger Journal(done, id)} ::
         if Journal(done, id) == [] then id !in heads
         else id in heads && heads[id] == Head(Journal(done, id)) && counts[id] == |Journal(done, id)|
  }

  lemma TallyOne(done: seq<Row>, heads: map<string, Digest>, counts: map<string, nat>, e: Row)
    requires Tallied(done, heads, counts)
    ensures var id := e.body.decisionId;
            && (if id in heads then heads[id] else GENESIS) == Head(Journal(done, id))
            && Tallied(done + [e], heads[id := e.eventHash], counts[id := (if id in counts then counts[id] else 0) + 1])
  {
    var more := done + [e];
    assert more[..|more| - 1] == done;
    assert forall id :: Journal(more, id) == if e.body.decisionId == id then Journal(done, id) + [e]
      else Journal(done, id);
  }

  lemma RechainOne(h: Hasher<Body>, rows: seq<Row>, k: nat)
    requires k < |rows|
    ensures var done := Rechained(h, rows[..k]);
            Rechained(h, rows[..k + 1])
              == done + [Chained(h, Journal(done, rows[k].body.decisionId), rows[k].eventId, rows[k].body)]
  {
    assert rows[..k + 1][..k] == rows[..k];
  }

  lemma WriteAt(events: seq<Row>, rows: seq<Row>, k: nat, e: Row)
    requires |events| == |rows| && k < |rows| && events[k..] == rows[k..]
    ensures events[k := e][..k + 1] == events[..k] + [e]
    ensures events[k := e][k + 1..] == rows[k + 1..]
  {
    assert events[k..][1..] == rows[k..][1..];
  }

  class JournalStore {
    const hasher: Hasher<Body>
    var jobs: map<string, Job>
    var events: seq<Row>

    constructor (hasher: Hasher<Body>, jobs: map<string, Job>, events: seq<Row>)
      ensures this.hasher == hasher && this.jobs == jobs && this.events == events
    {
      this.hasher, this.jobs, this.events := hasher, jobs, events;
    }

    method RehashEvents() returns (heads: map<string, Digest>, counts: map<string, nat>)
      modifies this`events
      ensures events == Rechained(hasher, old(events))
      ensures Tallied(events, heads, counts)
    {
      var rows := events;
      heads, counts := map[], map[];
      for k := 0 to |rows|
        invariant |events| == |rows| && events[..k] == Rechained(hasher, rows[..k]) && events[k..] == rows[k..]
        invariant Tallied(events[..k], heads, counts)
      {
        ghost var done := events[..k];
        var event := rows[k];
        var id := event.body.decisionId;
        var previousHash := if id in heads then heads[id] else GENESIS;
        var eventHash := hasher(event.body, previousHash);
        var rehashed := event.(previousHash := previousHash, eventHash := eventHash);
        TallyOne(done, heads, counts, rehashed);
        RechainOne(hasher, rows, k);
        WriteAt(events, rows, k, rehashed);
        events := events[k := rehashed];
        heads := heads[id := eventHash];
        counts := counts[id := (if id in counts then counts[id] else 0) + 1];
      }
      assert events[..|rows|] == events && rows[..|rows|] == rows;
    }

    /** Afterwards every job that has events verifies; jobs without events are left alone. */
    method BackfillEventHashes()
      modifies this
      ensures events == Rechained(hasher, old(events))
      ensures jobs.Keys == old(jobs).Keys
      ensures forall id :: id in jobs ==>
        var journal := Journal(events, id);
        jobs[id] == if journal == [] then old(jobs)[id]
          else old(jobs)[id].(eventCount := |journal|, eventHead := Head(journal))
      ensures forall id :: id in jobs && Journal(events, id) != [] ==>
        Runs.Verify(hasher, jobs[id], Journal(events, id)).valid
    {
      ghost var rows := events;
      var heads, counts := RehashEvents();
      jobs := map id | id in jobs :: if id in heads
        then jobs[id].(eventCount := counts[id], eventHead := heads[id]) else jobs[id];
      forall id | id in jobs && Journal(events, id) != []
        ensures Runs.Verify(hasher, jobs[id], Journal(events, id)).valid
      {
        RechainedLinks(hasher, rows, id);
        LinkedNeverMisfits(hasher, Journal(events, id));
      }
    }
  }
}
