/** Hash-linked event lists, as kept by the buyer agent scheduler and by the hosted buyer queue.
    SHA-256 over the canonical JSON is an arbitrary function of the hashed fields and the
    previous hash; only the theorems that need it assume that it has no collisions. */
module EventChain {
  import opened Wrappers

  /** A stored hash column: the genesis value of 64 zero digits, or any other text. */
  datatype Digest = Zeros | Hex(text: string)

  const GENESIS: Digest := Zeros

  type Hasher<!B> = (B, Digest) -> Digest

  /** A stored event row; `body` holds the hashed fields. */
  datatype Event<B> = Event(eventId: nat, body: B, previousHash: Digest, eventHash: Digest)

  ghost predicate CollisionFree<B(!new)>(h: Hasher<B>) {
    forall b, p, b', p' :: h(b, p) == h(b', p') ==> b == b' && p == p'
  }

  ghost predicate AvoidsGenesis<B(!new)>(h: Hasher<B>) {
    forall b, p :: h(b, p) != GENESIS
  }

  /** The hash the next event links to. */
  function Head<B>(events: seq<Event<B>>): Digest {
    if events == [] then GENESIS else events[|events| - 1].eventHash
  }

  function Bodies<B>(events: seq<Event<B>>): (bodies: seq<B>)
    ensures |bodies| == |events|
    ensures forall k :: 0 <= k < |events| ==> bodies[k] == events[k].body
  {
    seq(|events|, k requires 0 <= k < |events| => events[k].body)
  }

  /** `e` continues the chain `before`. */
  predicate Fits<B>(h: Hasher<B>, before: seq<Event<B>>, e: Event<B>) {
    e.previousHash == Head(before) && e.eventHash == h(e.body, Head(before))
  }

  predicate FitsAt<B>(h: Hasher<B>, events: seq<Event<B>>, k: nat)
    requires k < |events|
  {
    Fits(h, events[..k], events[k])
  }

  /** An unbroken chain from the genesis value. */
  ghost predicate Linked<B(!new)>(h: Hasher<B>, events: seq<Event<B>>) {
    forall k: nat {:trigger FitsAt(h, events, k)} :: k < |events| ==> FitsAt(h, events, k)
  }

  function Chained<B>(h: Hasher<B>, events: seq<Event<B>>, eventId: nat, body: B): Event<B> {
    Event(eventId, body, Head(events), h(body, Head(events)))
  }

  lemma PrefixLinked<B(!new)>(h: Hasher<B>, events: seq<Event<B>>, n: nat)
    requires Linked(h, events) && n <= |events|
    ensures Linked(h, events[..n])
  {
    forall k: nat | k < n ensures FitsAt(h, events[..n], k) {
      assert FitsAt(h, events, k);
      assert events[..n][..k] == events[..k];
    }
  }

  lemma ExtendLinked<B(!new)>(h: Hasher<B>, front: seq<Event<B>>, e: Event<B>)
    requires Linked(h, front) && Fits(h, front, e)
    ensures Linked(h, front + [e])
  {
    var events := front + [e];
    forall k: nat | k < |events| ensures FitsAt(h, events, k) {
      assert events[..k] == front[..k];
      if k < |front| {
        assert FitsAt(h, front, k);
      } else {
        assert front[..k] == front;
      }
    }
  }

  lemma LinkedStepwise<B(!new)>(h: Hasher<B>, events: seq<Event<B>>)
    requires events != []
    ensures Linked(h, events)
      <==> Linked(h, events[..|events| - 1]) && Fits(h, events[..|events| - 1], events[|events| - 1])
  {
    var front := events[..|events| - 1];
    if Linked(h, events) {
      PrefixLinked(h, events, |events| - 1);
      assert FitsAt(h, events, |events| - 1);
    }
    if Linked(h, front) && Fits(h, front, events[|events| - 1]) {
      ExtendLinked(h, front, events[|events| - 1]);
      assert front + [events[|events| - 1]] == events;
    }
  }

  lemma AppendKeepsLinks<B(!new)>(h: Hasher<B>, events: seq<Event<B>>, eventId: nat, body: B)
    requires Linked(h, events)
    ensures Linked(h, events + [Chained(h, events, eventId, body)])
  {
    ExtendLinked(h, events, Chained(h, events, eventId, body));
  }

  lemma LastLink<B(!new)>(h: Hasher<B>, events: seq<Event<B>>)
    requires Linked(h, events) && events != []
    ensures var last := events[|events| - 1];
            && Head(events) == h(last.body, last.previousHash)
            && last.previousHash == Head(events[..|events| - 1])
            && Linked(h, events[..|events| - 1])
            && Bodies(events) == Bodies(events[..|events| - 1]) + [last.body]
  {
    LinkedStepwise(h, events);
  }

  /** The head commits to the whole history: one head, one list of hashed fields. */
  lemma {:induction false} HeadCommits<B(!new)>(h: Hasher<B>, left: seq<Event<B>>, right: seq<Event<B>>)
    requires CollisionFree(h) && AvoidsGenesis(h)
    requires Linked(h, left) && Linked(h, right)
    requires Head(left) == Head(right)
    ensures Bodies(left) == Bodies(right)
    decreases |left|
  {
    if left != [] {
      LastLink(h, left);
    }
    if right != [] {
      LastLink(h, right);
    }
    if left != [] && right != [] {
      HeadCommits(h, left[..|left| - 1], right[..|right| - 1]);
    }
  }

  /** In an unbroken chain all prefixes have different heads: no two events link to the same hash. */
  lemma {:induction false} HeadsAreDistinct<B(!new)>(h: Hasher<B>, events: seq<Event<B>>, i: nat, j: nat)
    requires CollisionFree(h) && AvoidsGenesis(h) && Linked(h, events)
    requires i < j <= |events|
    ensures Head(events[..i]) != Head(events[..j])
    decreases j
  {
    assert FitsAt(h, events, j - 1);
    assert Head(events[..j]) == events[j - 1].eventHash;
    if i > 0 {
      assert FitsAt(h, events, i - 1);
      assert Head(events[..i]) == events[i - 1].eventHash;
      HeadsAreDistinct(h, events, i - 1, j - 1);
    }
  }

  // ---------- verification ----------

  /** What a verification reports; `firstInvalid` is the id of the first event that fails. */
  datatype Verification = Verification(valid: bool, eventCount: nat, headHash: Option<Digest>,
                                       firstInvalid: Option<nat>)

  /** Position of the first event that does not continue the chain before it. */
  function FirstMisfit<B>(h: Hasher<B>, events: seq<Event<B>>): (k: Option<nat>)
    ensures k.Some? ==> k.value < |events|
  {
    if events == [] then None
    else
      var front := events[..|events| - 1];
      var k := FirstMisfit(h, front);
      if k.Some? then k else if Fits(h, front, events[|events| - 1]) then None else Some(|events| - 1)
  }

  /** The first misfit splits the list: everything before it is an unbroken chain, and it is not. */
  lemma {:induction false} FirstMisfitSplits<B(!new)>(h: Hasher<B>, events: seq<Event<B>>)
    ensures var k := FirstMisfit(h, events);
            if k.None? then Linked(h, events) else Linked(h, events[..k.value]) && !Linked(h, events[..k.value + 1])
  {
    if events != [] {
      var n := |events| - 1;
      var front := events[..n];
      FirstMisfitSplits(h, front);
      var k := FirstMisfit(h, front);
      if k.Some? {
        assert front[..k.value] == events[..k.value] && front[..k.value + 1] == events[..k.value + 1];
      } else {
        LinkedStepwise(h, events);
        assert events[..n + 1] == events;
      }
    }
  }

  lemma {:induction false} MisfitStays<B>(h: Hasher<B>, events: seq<Event<B>>, n: nat)
    requires n <= |events| && FirstMisfit(h, events[..n]).Some?
    ensures FirstMisfit(h, events) == FirstMisfit(h, events[..n])
    decreases |events|
  {
    if n < |events| {
      var front := events[..|events| - 1];
      assert front[..n] == events[..n];
      MisfitStays(h, front, n);
    } else {
      assert events[..n] == events;
    }
  }

  lemma LinkedNeverMisfits<B(!new)>(h: Hasher<B>, events: seq<Event<B>>)
    requires Linked(h, events)
    ensures FirstMisfit(h, events).None?
  {
    FirstMisfitSplits(h, events);
    var k := FirstMisfit(h, events);
    if k.Some? {
      PrefixLinked(h, events, k.value + 1);
    }
  }
}
