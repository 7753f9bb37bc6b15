/** What each step of the outreach rule leaves of the tables, said of their own columns. */
module OutreachOutcomes {
  import opened Wrappers
  import opened OutreachWindow

  /** Only action `id` may differ. */
  predicate OnlyAction(t: Tables, after: Tables, id: nat) {
    && |after.actions| == |t.actions| && after.windows == t.windows
    && forall k :: 0 <= k < |t.actions| && k != id ==> after.actions[k] == t.actions[k]
  }

  predicate SameProposal(a: Action, b: Action) {
    a.prospect == b.prospect && a.campaign == b.campaign && a.createdAt == b.createdAt && a.tag == b.tag
  }

  /** A proposal becomes an action exactly when its campaign has none for the prospect and, unless it is blocked, no
      window of the prospect is less than a day old; only an unblocked one opens a window. */
  lemma InsertsExactly(t: Tables, p: string, c: string, screening: Screening, tag: nat, now: nat)
    requires p in t.lastContacted
    ensures var after := InsertTx(t, p, c, screening, tag, now);
      var first := forall k :: 0 <= k < |t.actions| ==> t.actions[k].prospect != p || t.actions[k].campaign != c;
      var free := p in t.windows ==> t.windows[p].reservedAt + 86400 <= now;
      && (after != t <==> first && (screening == MustBlock || (screening == MayPropose && free)))
      && (after != t ==>
            && after.actions == t.actions + [Action(p, c, if screening == MustBlock then Blocked else Proposed, 0, now,
                                                    now, tag)]
            && after.lastContacted == t.lastContacted
            && after.windows == if screening == MustBlock then t.windows
                                else t.windows[p := Window(|t.actions|, now)])
  {
    assert AlreadyProposed(t, p, c) <==>
      exists k :: 0 <= k < |t.actions| && t.actions[k].prospect == p && t.actions[k].campaign == c by {
      if AlreadyProposed(t, p, c) {
        var a :| a in t.actions && a.prospect == p && a.campaign == c;
      }
    }
  }

  /** The prospect was left alone for a day: no contact, no window, no unblocked action. */
  predicate LeftAlone(t: Tables, p: string, now: nat) {
    && (p in t.lastContacted && t.lastContacted[p].Some? ==> t.lastContacted[p].value + 86400 <= now)
    && (p in t.windows ==> t.windows[p].reservedAt + 86400 <= now)
    && forall k :: 0 <= k < |t.actions| && t.actions[k].prospect == p && t.actions[k].status != Blocked ==>
         t.actions[k].createdAt + 86400 <= now
  }

  lemma EligibleIsLeftAlone(t: Tables, p: string, now: nat)
    requires p in t.lastContacted
    ensures EligibilityOf(t, p, now).eligible <==> LeftAlone(t, p, now)
  {
    EligibleExactly(t, p, now);
    assert forall k :: 0 <= k < |t.actions| ==>
      (Counts(t.actions[k], p, now) <==>
         t.actions[k].prospect == p && t.actions[k].status != Blocked && t.actions[k].createdAt + 86400 > now);
  }

  /** With nothing in between, a proposal to a known prospect is inserted exactly when it was left alone for a day. */
  lemma ProposesExactly(t: Tables, p: string, c: string, screening: Screening, tag: nat, now: nat)
    ensures ProposeTx(t, p, c, screening, tag, now) ==
      if p in t.lastContacted && LeftAlone(t, p, now) then InsertTx(t, p, c, screening, tag, now) else t
  {
    if p in t.lastContacted {
      EligibleIsLeftAlone(t, p, now);
    }
  }

  /** An approval takes any action that is neither blocked nor executed, and keeps its attempts. */
  lemma ApprovesExactly(t: Tables, id: nat, now: nat)
    ensures var after := ApproveTx(t, id, now);
      && OnlyAction(t, after, id) && after.lastContacted == t.lastContacted
      && (id < |t.actions| ==>
            var a, b := t.actions[id], after.actions[id];
            if a.status == Blocked || a.status == Executed then b == a
            else b.status == Approved && b.attempts == a.attempts && b.updatedAt == now && SameProposal(a, b))
  {
  }

  /** A retry takes exactly a failed action with fewer than three attempts whose prospect was left alone for a day. */
  lemma RetriesExactly(t: Tables, id: nat, now: nat)
    requires id < |t.actions| && t.actions[id].prospect in t.lastContacted
    ensures var after := RetryTx(t, id, now);
      var a, b := t.actions[id], after.actions[id];
      && OnlyAction(t, after, id) && after.lastContacted == t.lastContacted
      && if a.status == Failed && a.attempts <= 2 && LeftAlone(t, a.prospect, now)
         then b.status == Approved && b.attempts == a.attempts && b.updatedAt == now && SameProposal(a, b)
         else b == a
  {
    EligibleIsLeftAlone(t, t.actions[id].prospect, now);
  }

  /** A claim marks the action and sets the contact time of its prospect, and of no other. */
  lemma ClaimsExactly(t: Tables, id: nat, now: nat)
    requires id < |t.actions|
    ensures var after := ClaimTx(t, id, now);
      var a, b := t.actions[id], after.actions[id];
      && OnlyAction(t, after, id)
      && b.status == Executing && b.attempts == a.attempts && b.updatedAt == now && SameProposal(a, b)
      && a.prospect in after.lastContacted && after.lastContacted[a.prospect] == Some(now)
      && after.lastContacted.Keys == t.lastContacted.Keys + {a.prospect}
      && forall p :: p in t.lastContacted && p != a.prospect ==> after.lastContacted[p] == t.lastContacted[p]
  {
  }

  /** An execution ends executed exactly when it was delivered and failed otherwise, and counts as an attempt. */
  lemma FinishesExactly(t: Tables, id: nat, delivered: bool, now: nat)
    ensures var after := FinishTx(t, id, delivered, now);
      && OnlyAction(t, after, id) && after.lastContacted == t.lastContacted
      && (id < |t.actions| ==>
            var a, b := t.actions[id], after.actions[id];
            && (b.status == Executed <==> delivered) && (b.status == Failed <==> !delivered)
            && b.attempts == a.attempts + 1 && b.updatedAt == now && SameProposal(a, b))
  {
  }

  /** Recovery fails exactly the executions that have not moved for the given time, a minute at least. */
  lemma RecoversExactly(t: Tables, now: nat, staleAfter: nat, k: nat)
    requires k < |t.actions|
    ensures var after := RecoverTx(t, now, staleAfter);
      && |after.actions| == |t.actions| && after.windows == t.windows && after.lastContacted == t.lastContacted
      && var a, b := t.actions[k], after.actions[k];
        if a.status == Executing && a.updatedAt + staleAfter < now && a.updatedAt + 60 < now
        then b.status == Failed && b.attempts == a.attempts && b.updatedAt == now && SameProposal(a, b)
        else b == a
  {
  }

  /** An action may be attempted exactly when it is approved and its prospect was left alone for a day, or when the
      last thing that happened is its own proposal: it holds the open window, or without one is the newest action. */
  lemma MayAttemptExactly(t: Tables, id: nat, now: nat)
    requires id < |t.actions| && t.actions[id].prospect in t.lastContacted
    ensures var p := t.actions[id].prospect;
      var contacted := t.lastContacted[p].Some? && t.lastContacted[p].value + 86400 > now;
      var open := p in t.windows && t.windows[p].reservedAt + 86400 > now;
      var recent := exists k :: 0 <= k < |t.actions| && Counts(t.actions[k], p, now);
      MayAttempt(t, id, now) <==>
        && t.actions[id].status == Approved
        && ((!contacted && !open && !recent)
            || (open && t.windows[p].action == id)
            || (!open && Newest(t.actions, p, now) == Some(id)))
  {
    EligibleExactly(t, t.actions[id].prospect, now);
  }

  /** Of the recent unblocked actions of a prospect the newest is one that none was created after, of those created
      with it the one with the greatest tag. */
  lemma {:induction false} NewestExactly(actions: seq<Action>, p: string, now: nat, i: nat)
    requires i < |actions| && actions[i].prospect == p && actions[i].status != Blocked
    requires actions[i].createdAt + 86400 > now
    ensures var k := Newest(actions, p, now);
      && k.Some? && k.value < |actions|
      && actions[i].createdAt <= actions[k.value].createdAt
      && (actions[i].createdAt == actions[k.value].createdAt ==> actions[i].tag <= actions[k.value].tag)
  {
    var n := |actions| - 1;
    assert Counts(actions[i], p, now);
    if i < n {
      NewestExactly(actions[..n], p, now, i);
    } else if Newest(actions[..n], p, now).Some? {
      NewestExactly(actions[..n], p, now, Newest(actions[..n], p, now).value);
    }
  }
}
