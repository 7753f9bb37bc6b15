/** The order-independent verifier of iat/hosted_buyer_jobs.py: it indexes the rows of a job by the hash
    they link to, follows the links from the genesis value, and hashes what it followed again. */
module HostedEventVerifier {
  import opened Wrappers
  import opened EventChain

  /** The dictionary by previous hash: of several rows with one link the last one stays. */
  function Index<B>(rows: seq<Event<B>>): map<Digest, Event<B>> {
    if rows == [] then map[]
    else
      var last := rows[|rows| - 1];
      Index(rows[..|rows| - 1])[last.previousHash := last]
  }

  /** The rows met by following the links from `previous`, each taken out of the index as it is met. */
  function Follow<B>(index: map<Digest, Event<B>>, previous: Digest): (ordered: seq<Event<B>>)
    decreases |index|
  {
    if previous in index then
      assert |index - {previous}| < |index| by { Shrinks(index, previous); }
      [index[previous]] + Follow(index - {previous}, index[previous].eventHash)
    else []
  }

  lemma Shrinks<B>(index: map<Digest, Event<B>>, key: Digest)
    requires key in index
    ensures |index - {key}| == |index| - 1
  {
    assert (index - {key}).Keys == index.Keys - {key};
    assert |index - {key}| == |(index - {key}).Keys| && |index| == |index.Keys|;
  }

  /** `firstInvalid` is an index into the followed rows. */
  datatype Report = Report(valid: bool, eventCount: nat, firstInvalid: Option<nat>, headHash: Option<Digest>)

  function Verify<B>(h: Hasher<B>, rows: seq<Event<B>>): Report {
    var index := Index(rows);
    var ordered := Follow(index, GENESIS);
    if |ordered| < |index| then Report(false, |rows|, Some(|ordered|), None)
    else
      var misfit := FirstMisfit(h, ordered);
      if misfit.Some? then Report(false, |rows|, misfit, None)
      else Report(true, |ordered|, None, if ordered == [] then None else Some(Head(ordered)))
  }

  /** An invalid report names a first invalid index, counts all rows and has no head; a valid one names none, and has a
      head when it covers any row. */
  lemma ReportExactly<B(!new)>(h: Hasher<B>, rows: seq<Event<B>>)
    ensures var r := Verify(h, rows);
      && (r.valid <==> r.firstInvalid.None?)
      && (!r.valid ==> r.eventCount == |rows| && r.headHash.None?)
      && (r.valid ==> (r.headHash.Some? <==> r.eventCount > 0))
      && (|Follow(Index(rows), GENESIS)| < |Index(rows)| ==> r.firstInvalid == Some(|Follow(Index(rows), GENESIS)|))
  {
  }

  // ---------- what the index and the walk hold ----------

  ghost predicate Keyed<B(!new)>(index: map<Digest, Event<B>>) {
    forall p :: p in index ==> index[p].previousHash == p
  }

  lemma {:induction false} IndexHoldsRows<B(!new)>(rows: seq<Event<B>>)
    ensures Keyed(Index(rows))
    ensures forall p :: p in Index(rows) ==> Index(rows)[p] in rows
    ensures forall row :: row in rows ==> row.previousHash in Index(rows)
  {
    if rows != [] {
      var front := rows[..|rows| - 1];
      var last := rows[|rows| - 1];
      IndexHoldsRows(front);
      assert rows == front + [last];
      assert Index(rows).Keys == Index(front).Keys + {last.previousHash};
    }
  }

  ghost predicate DistinctLinks<B>(rows: seq<Event<B>>) {
    forall i, j :: 0 <= i < j < |rows| ==> rows[i].previousHash != rows[j].previousHash
  }

  lemma IndexGrows<B(!new)>(rows: seq<Event<B>>)
    requires rows != []
    ensures var front := rows[..|rows| - 1];
      |Index(rows)| == |Index(front)| + (if rows[|rows| - 1].previousHash in Index(front) then 0 else 1)
  {
    var front := rows[..|rows| - 1];
    var key := rows[|rows| - 1].previousHash;
    assert Index(rows).Keys == Index(front).Keys + {key};
    assert |Index(rows)| == |Index(rows).Keys| && |Index(front)| == |Index(front).Keys|;
    if key in Index(front) {
      assert Index(rows).Keys == Index(front).Keys;
    }
  }

  lemma NewLinkIsDistinct<B(!new)>(rows: seq<Event<B>>)
    requires rows != [] && rows[|rows| - 1].previousHash !in Index(rows[..|rows| - 1])
    requires DistinctLinks(rows[..|rows| - 1])
    ensures DistinctLinks(rows)
  {
    var front := rows[..|rows| - 1];
    var key := rows[|rows| - 1].previousHash;
    forall i | 0 <= i < |front| ensures front[i].previousHash != key {
      IndexHoldsRows(front);
      assert front[i] in front;
    }
  }

  lemma OldLinkIsRepeated<B(!new)>(rows: seq<Event<B>>)
    requires rows != [] && rows[|rows| - 1].previousHash in Index(rows[..|rows| - 1])
    ensures !DistinctLinks(rows)
  {
    var front := rows[..|rows| - 1];
    var found := Index(front)[rows[|rows| - 1].previousHash];
    assert found in front && found.previousHash == rows[|rows| - 1].previousHash by { IndexHoldsRows(front); }
    var i :| 0 <= i < |front| && front[i] == found;
    assert rows[i] == found;
  }

  /** Nothing is lost by indexing exactly when no two rows link to the same hash. */
  lemma {:induction false} IndexLosesNothing<B(!new)>(rows: seq<Event<B>>)
    ensures |Index(rows)| <= |rows|
    ensures |Index(rows)| == |rows| <==> DistinctLinks(rows)
  {
    if rows != [] {
      IndexLosesNothing(rows[..|rows| - 1]);
      IndexGrows(rows);
      if rows[|rows| - 1].previousHash in Index(rows[..|rows| - 1]) {
        OldLinkIsRepeated(rows);
      } else if DistinctLinks(rows[..|rows| - 1]) {
        NewLinkIsDistinct(rows);
      }
    }
  }

  lemma {:induction false} FollowTakesFromIndex<B(!new)>(index: map<Digest, Event<B>>, previous: Digest)
    requires Keyed(index)
    ensures var ordered := Follow(index, previous);
      && |ordered| <= |index|
      && DistinctLinks(ordered)
      && (forall k :: 0 <= k < |ordered| ==>
        ordered[k].previousHash in index && index[ordered[k].previousHash] == ordered[k])
    decreases |index|
  {
    if previous in index {
      Shrinks(index, previous);
      FollowTakesFromIndex(index - {previous}, index[previous].eventHash);
    }
  }

  lemma {:induction false} DistinctMembersFit<T>(s: seq<T>, t: seq<T>)
    requires forall i, j :: 0 <= i < j < |s| ==> s[i] != s[j]
    requires forall k :: 0 <= k < |s| ==> s[k] in t
    ensures multiset(s) <= multiset(t)
  {
    if s != [] {
      var n := |s| - 1;
      DistinctMembersFit(s[..n], t);
      assert s == s[..n] + [s[n]];
      assert s[n] !in s[..n];
      assert s[n] in multiset(t);
    }
  }

  lemma SameSize<T>(s: seq<T>, t: seq<T>)
    requires multiset(s) <= multiset(t) && |s| == |t|
    ensures multiset(s) == multiset(t)
  {
    assert multiset(t) == multiset(s) + (multiset(t) - multiset(s));
    assert |multiset(t)| == |multiset(s)| + |multiset(t) - multiset(s)|;
  }

  // ---------- the main theorem ----------

  /** The rows are one unbroken chain from the genesis value, in whatever order they are read. */
  ghost predicate PermutesChain<B(!new)>(h: Hasher<B>, rows: seq<Event<B>>) {
    exists chain :: IsChainOf(h, chain, rows)
  }

  ghost predicate IsChainOf<B(!new)>(h: Hasher<B>, chain: seq<Event<B>>, rows: seq<Event<B>>) {
    Linked(h, chain) && multiset(chain) == multiset(rows)
  }

  /** A valid report for all rows exhibits the chain; this needs no assumption about the hash. */
  lemma ValidReportIsChain<B(!new)>(h: Hasher<B>, rows: seq<Event<B>>)
    requires Verify(h, rows).valid && Verify(h, rows).eventCount == |rows|
    ensures IsChainOf(h, Follow(Index(rows), GENESIS), rows)
  {
    var ordered := Follow(Index(rows), GENESIS);
    IndexHoldsRows(rows);
    FollowTakesFromIndex(Index(rows), GENESIS);
    FirstMisfitSplits(h, ordered);
    forall k | 0 <= k < |ordered| ensures ordered[k] in rows {
      assert Index(rows)[ordered[k].previousHash] in rows;
    }
    DistinctMembersFit(ordered, rows);
    SameSize(ordered, rows);
  }

  ghost predicate LinkFrom<B>(chain: seq<Event<B>>, i: nat, p: Digest) {
    exists k :: i <= k < |chain| && chain[k].previousHash == p
  }

  /** What the index holds when the chain was followed up to position `i`. */
  ghost predicate HoldsFrom<B(!new)>(index: map<Digest, Event<B>>, chain: seq<Event<B>>, i: nat) {
    && (forall k :: i <= k < |chain| ==> chain[k].previousHash in index && index[chain[k].previousHash] == chain[k])
    && (forall p {:trigger LinkFrom(chain, i, p)} :: p in index ==> LinkFrom(chain, i, p))
  }

  lemma ChainAdvances<B(!new)>(h: Hasher<B>, index: map<Digest, Event<B>>, chain: seq<Event<B>>, i: nat)
    requires CollisionFree(h) && AvoidsGenesis(h) && Linked(h, chain)
    requires i < |chain| && HoldsFrom(index, chain, i)
    ensures Head(chain[..i]) in index && index[Head(chain[..i])] == chain[i]
    ensures chain[i].eventHash == Head(chain[..i + 1])
    ensures HoldsFrom(index - {Head(chain[..i])}, chain, i + 1)
  {
    assert FitsAt(h, chain, i);
    var previous := Head(chain[..i]);
    var rest := index - {previous};
    forall k | i + 1 <= k < |chain| ensures chain[k].previousHash in rest && rest[chain[k].previousHash] == chain[k] {
      assert FitsAt(h, chain, k);
      HeadsAreDistinct(h, chain, i, k);
    }
    forall p | p in rest ensures LinkFrom(chain, i + 1, p) {
      assert LinkFrom(chain, i, p);
    }
  }

  lemma {:induction false} FollowsChain<B(!new)>(h: Hasher<B>, index: map<Digest, Event<B>>, chain: seq<Event<B>>,
                                          i: nat)
    requires CollisionFree(h) && AvoidsGenesis(h) && Linked(h, chain)
    requires i <= |chain| && HoldsFrom(index, chain, i)
    ensures Follow(index, Head(chain[..i])) == chain[i..]
    ensures |index| == |chain| - i
    decreases |chain| - i
  {
    if i == |chain| {
      assert forall p :: p in index ==> LinkFrom(chain, i, p);
      assert index == map[];
    } else {
      ChainAdvances(h, index, chain, i);
      FollowsChain(h, index - {Head(chain[..i])}, chain, i + 1);
      Shrinks(index, Head(chain[..i]));
      assert chain[i..] == [chain[i]] + chain[i + 1..];
    }
  }

  lemma ChainIsIndexed<B(!new)>(h: Hasher<B>, chain: seq<Event<B>>, rows: seq<Event<B>>)
    requires CollisionFree(h) && AvoidsGenesis(h) && IsChainOf(h, chain, rows)
    ensures HoldsFrom(Index(rows), chain, 0)
  {
    IndexHoldsRows(rows);
    var index := Index(rows);
    forall k | 0 <= k < |chain| ensures chain[k].previousHash in index && index[chain[k].previousHash] == chain[k] {
      assert chain[k] in multiset(chain);
      var found := index[chain[k].previousHash];
      assert found in multiset(rows);
      var j :| 0 <= j < |chain| && chain[j] == found;
      assert FitsAt(h, chain, k) && FitsAt(h, chain, j);
      if j < k {
        HeadsAreDistinct(h, chain, j, k);
      } else if k < j {
        HeadsAreDistinct(h, chain, k, j);
      }
    }
    forall p | p in index ensures LinkFrom(chain, 0, p) {
      assert index[p] in multiset(rows);
      assert index[p] in chain;
    }
  }

  lemma ChainVerifies<B(!new)>(h: Hasher<B>, chain: seq<Event<B>>, rows: seq<Event<B>>)
    requires CollisionFree(h) && AvoidsGenesis(h) && IsChainOf(h, chain, rows)
    ensures Verify(h, rows) == Report(true, |rows|, None, if rows == [] then None else Some(Head(chain)))
  {
    ChainIsIndexed(h, chain, rows);
    assert chain[..0] == [] && chain[0..] == chain;
    FollowsChain(h, Index(rows), chain, 0);
    LinkedNeverMisfits(h, chain);
    assert |multiset(chain)| == |chain| && |multiset(rows)| == |rows|;
  }

  /** The verifier accepts all rows exactly when they are, in some order, one unbroken chain. */
  lemma VerifierIsExact<B(!new)>(h: Hasher<B>, rows: seq<Event<B>>)
    requires CollisionFree(h) && AvoidsGenesis(h)
    ensures Verify(h, rows).valid && Verify(h, rows).eventCount == |rows| <==> PermutesChain(h, rows)
  {
    if Verify(h, rows).valid && Verify(h, rows).eventCount == |rows| {
      ValidReportIsChain(h, rows);
    }
    if PermutesChain(h, rows) {
      var chain :| IsChainOf(h, chain, rows);
      ChainVerifies(h, chain, rows);
    }
  }

  /** A valid report may cover fewer rows than there are, exactly when two rows share a link. */
  lemma ValidReportMayDropRows<B(!new)>(h: Hasher<B>, rows: seq<Event<B>>)
    requires Verify(h, rows).valid
    ensures Verify(h, rows).eventCount <= |rows|
    ensures Verify(h, rows).eventCount == |rows| <==> DistinctLinks(rows)
  {
    IndexHoldsRows(rows);
    FollowTakesFromIndex(Index(rows), GENESIS);
    IndexLosesNothing(rows);
  }

  /** For example two first events: the report is valid and says nothing of the one it dropped. */
  lemma ForkIsReportedValid<B(!new)>(h: Hasher<B>, lost: Event<B>, kept: Event<B>)
    requires Fits(h, [], lost) && Fits(h, [], kept)
    ensures Verify(h, [lost, kept]) == Report(true, 1, None, Some(kept.eventHash))
    ensures lost != kept ==> !PermutesChain(h, [lost, kept]) || !CollisionFree(h) || !AvoidsGenesis(h)
  {
    var rows := [lost, kept];
    assert rows[..1] == [lost];
    assert Index(rows[..1]) == map[GENESIS := lost];
    assert Index(rows) == map[GENESIS := kept];
    assert Index(rows) - {GENESIS} == map[];
    assert Follow(Index(rows), GENESIS) == [kept];
    assert [kept][..0] == [];
    assert FirstMisfit(h, [kept]).None?;
    if CollisionFree(h) && AvoidsGenesis(h) {
      VerifierIsExact(h, rows);
    }
  }

  // ---------- the program ----------

  method IndexByPrevious<B>(rows: seq<Event<B>>) returns (byPrevious: map<Digest, Event<B>>)
    ensures byPrevious == Index(rows)
  {
    byPrevious := map[];
    for i := 0 to |rows|
      invariant byPrevious == Index(rows[..i])
    {
      assert rows[..i + 1][..i] == rows[..i];
      byPrevious := byPrevious[rows[i].previousHash := rows[i]];
    }
    assert rows[..|rows|] == rows;
  }

  method FollowLinks<B>(index: map<Digest, Event<B>>) returns (ordered: seq<Event<B>>, left: nat)
    ensures ordered == Follow(index, GENESIS) && |ordered| + left == |index|
  {
    var byPrevious := index;
    var previous := GENESIS;
    ordered := [];
    while previous in byPrevious
      invariant ordered + Follow(byPrevious, previous) == Follow(index, GENESIS)
      invariant |ordered| + |byPrevious| == |index|
      decreases |byPrevious|
    {
      Shrinks(byPrevious, previous);
      var event := byPrevious[previous];
      byPrevious := byPrevious - {previous};
      ordered := ordered + [event];
      previous := event.eventHash;
    }
    left := |byPrevious|;
  }

  /** A rebuild of the order in which the events were appended, then a check of every hash. */
  method VerifyEvents<B>(h: Hasher<B>, rows: seq<Event<B>>) returns (r: Report)
    ensures r == Verify(h, rows)
  {
    var byPrevious := IndexByPrevious(rows);
    var ordered, left := FollowLinks(byPrevious);
    if left != 0 {
      return Report(false, |rows|, Some(|ordered|), None);
    }
    var previous := GENESIS;
    for index := 0 to |ordered|
      invariant FirstMisfit(h, ordered[..index]).None?
      invariant previous == Head(ordered[..index])
    {
      var event := ordered[index];
      var expected := h(event.body, previous);
      assert ordered[..index + 1][..index] == ordered[..index];
      if event.previousHash != previous || event.eventHash != expected {
        MisfitStays(h, ordered, index + 1);
        return Report(false, |rows|, Some(index), None);
      }
      previous := expected;
    }
    assert ordered[..|ordered|] == ordered;
    r := Report(true, |ordered|, None, if ordered == [] then None else Some(previous));
  }
}
