/** What a journal that loads says of its attempts, read off its entries: the
    state of each, how it ended, and what recovery is told about it. */
module JournalFacts {
  import opened Results
  import opened Recovery
  import opened Reduction

  // ---------------------------------------------------------- states of an attempt

  /** The entry brings the attempt to this state. */
  ghost predicate Brings(e: Entry, id: Id, state: AttemptState) {
    match state
    case Starting => e.PerformerSelected? && e.attemptId == id
    case AttemptRunning => e == AdapterStarted(id)
    case Verifying => e == PerformerCompleted(id)
    case Completed => e.AttemptEnded? && e.attemptId == id && e.end == Completed
    case Blocked => e.AttemptEnded? && e.attemptId == id && e.end == Blocked
    case AttemptFailed =>
      || (e.AttemptEnded? && e.attemptId == id && e.end == AttemptFailed)
      || (e.AcceptanceRejected? && e.attemptId == id)
      || (e.MovementFailed? && e.attemptId == id && e.gateRejected)
    case AttemptCancelled => e.RunCancelled? && id in e.attempts
    case Superseded => e.AmendmentApproved? && id in e.superseded
  }

  ghost predicate Moves(e: Entry, id: Id) {
    exists state :: Brings(e, id, state)
  }

  ghost predicate IsEnd(state: AttemptState) {
    state != Starting && state != AttemptRunning && state != Verifying
  }

  /** An accepted entry that brings an attempt to a state finds it unended and
      leaves it there; any other entry leaves its state as it is. */
  lemma EntryMoves(l: Records, e: Entry, id: Id, state: AttemptState)
    requires Reduce(l, e).Some?
    ensures Brings(e, id, state) ==> Reduce(l, e).value.In(id, {state})
    ensures Moves(e, id) ==> !(id in l.attempts && IsEnd(l.attempts[id].state))
    ensures !Moves(e, id) ==> (Reduce(l, e).value.In(id, {state}) <==> l.In(id, {state}))
  {
    if Moves(e, id) {
      var s :| Brings(e, id, s);
      EntryBrings(l, e, id, s);
      if Brings(e, id, state) {
        EntryBrings(l, e, id, state);
      }
    } else {
      assert forall s :: !Brings(e, id, s);
      EntryLeaves(l, e, id, state);
    }
  }

  lemma EntryBrings(l: Records, e: Entry, id: Id, state: AttemptState)
    requires Reduce(l, e).Some? && Brings(e, id, state)
    ensures Reduce(l, e).value.In(id, {state})
    ensures !(id in l.attempts && IsEnd(l.attempts[id].state))
  {
  }

  lemma EntryLeaves(l: Records, e: Entry, id: Id, state: AttemptState)
    requires Reduce(l, e).Some? && forall s :: !Brings(e, id, s)
    ensures Reduce(l, e).value.In(id, {state}) <==> l.In(id, {state})
  {
    assert !Brings(e, id, Starting) && !Brings(e, id, AttemptRunning) && !Brings(e, id, Verifying);
    assert !Brings(e, id, Completed) && !Brings(e, id, Blocked) && !Brings(e, id, AttemptFailed);
    assert !Brings(e, id, AttemptCancelled) && !Brings(e, id, Superseded);
  }

  /** The entry that brought the attempt to the state, with no later move. */
  ghost predicate LastMove(journal: seq<Entry>, i: nat, id: Id, state: AttemptState) {
    i < |journal| && Brings(journal[i], id, state) && forall j | i < j < |journal| :: !Moves(journal[j], id)
  }

  /** In a journal that loads, an attempt is in a state exactly when the last
      entry that moves it brings it there. */
  lemma {:induction false} StateIs(revision: nat, journal: seq<Entry>, id: Id, state: AttemptState)
    requires Reduced(Empty(revision), journal).Some?
    ensures Reduced(Empty(revision), journal).value.In(id, {state}) <==>
              exists i :: LastMove(journal, i, id, state)
    decreases |journal|
  {
    hide Reduce, Brings;
    if journal != [] {
      var n := |journal| - 1;
      var before, e := journal[..n], journal[n];
      var l := Reduced(Empty(revision), before).value;
      EntryMoves(l, e, id, state);
      if Brings(e, id, state) {
        assert LastMove(journal, n, id, state);
      } else if Moves(e, id) {
        var s :| Brings(e, id, s);
        EntryMoves(l, e, id, s);
        assert forall i: nat | i < n :: !LastMove(journal, i, id, state);
      } else {
        StateIs(revision, before, id, state);
        forall i ensures LastMove(journal, i, id, state) <==> LastMove(before, i, id, state) {
        }
      }
    }
  }

  /** In a journal that loads, nothing moves an attempt that has ended. */
  lemma {:induction false} EndIsFinal(revision: nat, journal: seq<Entry>, i: nat, j: nat, id: Id, state: AttemptState)
    requires Reduced(Empty(revision), journal).Some? && i < j < |journal|
    requires Brings(journal[i], id, state) && IsEnd(state)
    ensures !Moves(journal[j], id)
    decreases |journal|
  {
    hide Reduce, Brings;
    var n := |journal| - 1;
    var before := journal[..n];
    if j < n {
      EndIsFinal(revision, before, i, j, id, state);
    } else {
      forall k | i < k < n ensures !Moves(before[k], id) {
        EndIsFinal(revision, before, i, k, id, state);
      }
      assert LastMove(before, i, id, state);
      StateIs(revision, before, id, state);
      EntryMoves(Reduced(Empty(revision), before).value, journal[n], id, state);
    }
  }

  /** An ended attempt is in the state to which some entry brought it. */
  lemma EndIs(revision: nat, journal: seq<Entry>, id: Id, state: AttemptState)
    requires Reduced(Empty(revision), journal).Some? && IsEnd(state)
    ensures Reduced(Empty(revision), journal).value.In(id, {state}) <==>
              exists e | e in journal :: Brings(e, id, state)
  {
    hide Reduce, Brings, Reduced;
    StateIs(revision, journal, id, state);
    if exists e | e in journal :: Brings(e, id, state) {
      var e :| e in journal && Brings(e, id, state);
      var i :| 0 <= i < |journal| && journal[i] == e;
      forall j | i < j < |journal| ensures !Moves(journal[j], id) {
        EndIsFinal(revision, journal, i, j, id, state);
      }
      assert LastMove(journal, i, id, state);
    }
  }

  // -------------------------------------------------------- what recovery is told

  /** The entry ends the attempt with this disposition. */
  ghost predicate Disposes(e: Entry, id: Id, disposition: Disposition) {
    e == AcceptanceRejected(id, disposition) || e == AttemptEnded(id, AttemptFailed, disposition)
  }

  ghost predicate HasDisposition(f: Facts, id: Id, disposition: Disposition) {
    id in f.attempts && f.attempts[id].recordedDisposition == Some(disposition)
  }

  lemma SameAttempts(revision: nat, journal: seq<Entry>, id: Id)
    requires Reduced(Empty(revision), journal).Some?
    ensures id in Reduced(Empty(revision), journal).value.attempts <==> id in Noted(NO_FACTS, journal).attempts
  {
    JournalsAgree(revision, journal);
    assert AgreeOn(Reduced(Empty(revision), journal).value, Noted(NO_FACTS, journal), id);
  }

  lemma DisposingMoves(e: Entry, id: Id, disposition: Disposition)
    ensures Disposes(e, id, disposition) ==> Brings(e, id, AttemptFailed) && Moves(e, id)
  {
  }

  lemma NoteDisposes(l: Records, f: Facts, e: Entry, id: Id, disposition: Disposition)
    requires Reduce(l, e).Some? && (id in l.attempts <==> id in f.attempts)
    ensures Disposes(e, id, disposition) ==> HasDisposition(Note(f, e), id, disposition)
    ensures HasDisposition(Note(f, e), id, disposition) ==>
              HasDisposition(f, id, disposition) || Disposes(e, id, disposition)
    ensures !Brings(e, id, Starting) && !Brings(e, id, AttemptFailed) ==>
              (HasDisposition(Note(f, e), id, disposition) <==> HasDisposition(f, id, disposition))
  {
  }

  /** No entry disposes of an attempt ahead of one that moves it. */
  lemma NoneDisposedBefore(revision: nat, journal: seq<Entry>, n: nat, id: Id, disposition: Disposition)
    requires Reduced(Empty(revision), journal).Some? && n < |journal| && Moves(journal[n], id)
    ensures forall e | e in journal[..n] :: !Disposes(e, id, disposition)
  {
    hide Reduce, Brings, Disposes, Moves;
    forall i | 0 <= i < n ensures !Disposes(journal[i], id, disposition) {
      DisposingMoves(journal[i], id, disposition);
      if Disposes(journal[i], id, disposition) {
        EndIsFinal(revision, journal, i, n, id, AttemptFailed);
      }
    }
  }

  /** The disposition that recovery reads of a failed attempt is that of the
      entry which ended it. */
  lemma {:induction false} DispositionIs(revision: nat, journal: seq<Entry>, id: Id, disposition: Disposition)
    requires Reduced(Empty(revision), journal).Some?
    ensures HasDisposition(Noted(NO_FACTS, journal), id, disposition) <==>
              exists e | e in journal :: Disposes(e, id, disposition)
    decreases |journal|
  {
    if journal != [] {
      var n := |journal| - 1;
      var before, e := journal[..n], journal[n];
      DispositionIs(revision, before, id, disposition);
      hide Reduce, Note, Brings, Disposes, HasDisposition;
      SameAttempts(revision, before, id);
      NoteDisposes(Reduced(Empty(revision), before).value, Noted(NO_FACTS, before), e, id, disposition);
      DisposingMoves(e, id, disposition);
      if Moves(e, id) {
        NoneDisposedBefore(revision, journal, n, id, disposition);
      }
      assert journal == before + [e];
    }
  }

  ghost predicate ResultOf(e: Entry, id: Id, succeeded: bool) {
    if succeeded then e.MovementSucceeded? && e.attemptId == id else e.MovementFailed? && e.attemptId == id
  }

  ghost predicate HasResult(f: Facts, id: Id, succeeded: bool) {
    id in f.attempts && if succeeded then f.attempts[id].movementSucceeded else f.attempts[id].movementFailed
  }

  lemma NoteResult(l: Records, f: Facts, e: Entry, id: Id, succeeded: bool)
    requires Reduce(l, e).Some? && (id in l.attempts <==> id in f.attempts)
    ensures HasResult(Note(f, e), id, succeeded) <==>
              HasResult(f, id, succeeded) || (id in l.attempts && ResultOf(e, id, succeeded))
    ensures ResultOf(e, id, true) ==> id in l.attempts
  {
  }

  lemma EntrySelects(l: Records, e: Entry, id: Id)
    requires Reduce(l, e).Some?
    ensures id in Reduce(l, e).value.attempts <==> id in l.attempts || Brings(e, id, Starting)
  {
  }

  /** An attempt is on record exactly when some entry selected it. */
  lemma {:induction false} SelectedIs(revision: nat, journal: seq<Entry>, id: Id)
    requires Reduced(Empty(revision), journal).Some?
    ensures id in Reduced(Empty(revision), journal).value.attempts <==>
              exists e | e in journal :: Brings(e, id, Starting)
    decreases |journal|
  {
    if journal != [] {
      var n := |journal| - 1;
      var before, e := journal[..n], journal[n];
      SelectedIs(revision, before, id);
      EntrySelects(Reduced(Empty(revision), before).value, e, id);
      assert journal == before + [e];
      hide Reduce, Brings;
    }
  }

  ghost predicate ResultBehind(journal: seq<Entry>, i: nat, j: nat, id: Id, succeeded: bool) {
    i < j < |journal| && Brings(journal[i], id, Starting) && ResultOf(journal[j], id, succeeded)
  }

  /** Recovery reads the end of a movement exactly when an entry says so behind
      the selection of the attempt. */
  lemma {:induction false} ResultIs(revision: nat, journal: seq<Entry>, id: Id, succeeded: bool)
    requires Reduced(Empty(revision), journal).Some?
    ensures HasResult(Noted(NO_FACTS, journal), id, succeeded) <==>
              exists i, j :: ResultBehind(journal, i, j, id, succeeded)
    decreases |journal|
  {
    if journal != [] {
      var n := |journal| - 1;
      var before, e := journal[..n], journal[n];
      var l, f := Reduced(Empty(revision), before).value, Noted(NO_FACTS, before);
      ResultIs(revision, before, id, succeeded);
      SelectedIs(revision, before, id);
      SameAttempts(revision, before, id);
      NoteResult(l, f, e, id, succeeded);
      hide Reduce, Note, Brings, ResultOf, HasResult;
      forall i: nat, j: nat | j < n ensures ResultBehind(journal, i, j, id, succeeded) <==>
        ResultBehind(before, i, j, id, succeeded) {
      }
      if id in l.attempts && ResultOf(e, id, succeeded) {
        var x :| x in before && Brings(x, id, Starting);
        var i :| 0 <= i < n && before[i] == x;
        assert ResultBehind(journal, i, n, id, succeeded);
      }
      if exists i, j :: ResultBehind(journal, i, j, id, succeeded) {
        var i: nat, j: nat :| ResultBehind(journal, i, j, id, succeeded);
        if j == n {
          assert journal[i] == before[i] && before[i] in before;
        }
      }
    }
  }

  ghost predicate GateRejectedAt(journal: seq<Entry>, i: nat, id: Id) {
    && i < |journal| && ResultOf(journal[i], id, false) && journal[i].gateRejected
    && forall j | i < j < |journal| && ResultOf(journal[j], id, false) :: journal[j].gateRejected
  }

  ghost predicate HasGateRejected(f: Facts, id: Id) {
    id in f.attempts && f.attempts[id].finalGateRejected
  }

  lemma NoteGate(l: Records, f: Facts, e: Entry, id: Id)
    requires Agree(l, f) && Reduce(l, e).Some?
    ensures ResultOf(e, id, false) ==> (HasGateRejected(Note(f, e), id) <==> e.gateRejected)
    ensures !ResultOf(e, id, false) ==>
              (HasGateRejected(Note(f, e), id) <==> HasGateRejected(f, id))
  {
    assert AgreeOn(l, f, id);
  }

  /** Recovery reads a rejected final gate exactly when the last failure of the
      movement under this attempt says so. */
  lemma {:induction false} GateRejectionIs(revision: nat, journal: seq<Entry>, id: Id)
    requires Reduced(Empty(revision), journal).Some?
    ensures HasGateRejected(Noted(NO_FACTS, journal), id) <==> exists i :: GateRejectedAt(journal, i, id)
    decreases |journal|
  {
    if journal != [] {
      var n := |journal| - 1;
      var before, e := journal[..n], journal[n];
      GateRejectionIs(revision, before, id);
      JournalsAgree(revision, before);
      NoteGate(Reduced(Empty(revision), before).value, Noted(NO_FACTS, before), e, id);
      hide Reduce, Note, HasGateRejected, Agree;
      if ResultOf(e, id, false) {
        assert e.gateRejected ==> GateRejectedAt(journal, n, id);
        assert forall i: nat | i < n && !e.gateRejected :: !GateRejectedAt(journal, i, id);
      } else {
        forall i ensures GateRejectedAt(journal, i, id) <==> GateRejectedAt(before, i, id) {
        }
      }
    }
  }

  // --------------------------------------------------------------- the head attempt

  lemma RevisionMoves(l: Records, e: Entry)
    requires Reduce(l, e).Some?
    ensures Reduce(l, e).value.scoreRevision == if e.AmendmentApproved? then e.scoreRevision else l.scoreRevision
  {
  }

  /** The score revision of the records is that of the last amendment. */
  lemma {:induction false} RevisionIs(revision: nat, journal: seq<Entry>, i: nat)
    requires Reduced(Empty(revision), journal).Some? && i <= |journal|
    requires i < |journal| ==> journal[i].AmendmentApproved?
    requires forall j | 0 <= j < |journal| && journal[j].AmendmentApproved? :: j <= i < |journal|
    ensures Reduced(Empty(revision), journal).value.scoreRevision ==
              if i < |journal| then journal[i].scoreRevision else revision
    decreases |journal|
  {
    if journal != [] {
      var n := |journal| - 1;
      RevisionMoves(Reduced(Empty(revision), journal[..n]).value, journal[n]);
      hide Reduce;
      if i != n {
        RevisionIs(revision, journal[..n], if i < n then i else n);
      }
    }
  }

  lemma NoteSelects(l: Records, f: Facts, e: Entry, id: Id)
    requires Agree(l, f) && Reduce(l, e).Some?
    ensures Note(f, e).order == f.order + if e.PerformerSelected? then [e.attemptId] else []
    ensures id in f.attempts ==> id in Note(f, e).attempts && !Brings(e, id, Starting)
    ensures id in f.attempts ==>
              var a, b := f.attempts[id], Note(f, e).attempts[id];
              a.movementId == b.movementId && a.performer == b.performer && a.scoreRevision == b.scoreRevision
  {
    assert AgreeOn(l, f, id);
  }

  /** The facts of an attempt are those of the entry that selected it. */
  ghost predicate SelectedBy(f: Facts, e: Entry) {
    e.PerformerSelected? ==>
      && e.attemptId in f.attempts
      && var a := f.attempts[e.attemptId];
         a.movementId == e.movementId && a.performer == e.performer && a.scoreRevision == e.scoreRevision
  }

  lemma {:induction false} AllSelectedBy(revision: nat, journal: seq<Entry>)
    requires Reduced(Empty(revision), journal).Some?
    ensures forall e | e in journal :: SelectedBy(Noted(NO_FACTS, journal), e)
    decreases |journal|
  {
    if journal != [] {
      var n := |journal| - 1;
      var before, last := journal[..n], journal[n];
      AllSelectedBy(revision, before);
      JournalsAgree(revision, before);
      assert journal == before + [last];
      forall e | e in journal ensures SelectedBy(Noted(NO_FACTS, journal), e) {
        if e in before && e.PerformerSelected? {
          NoteSelects(Reduced(Empty(revision), before).value, Noted(NO_FACTS, before), last, e.attemptId);
          assert SelectedBy(Noted(NO_FACTS, before), e);
          hide Reduce, Note, Agree;
        }
      }
    }
  }

  /** The entry selects an attempt for the current revision that is not superseded. */
  ghost predicate Stands(l: Records, e: Entry) {
    e.PerformerSelected? && e.scoreRevision == l.scoreRevision && !l.In(e.attemptId, {Superseded})
  }

  ghost predicate LastStanding(l: Records, journal: seq<Entry>, i: nat) {
    i < |journal| && Stands(l, journal[i]) && forall j | i < j < |journal| :: !Stands(l, journal[j])
  }

  ghost predicate HeadIsOf(head: Attempt, e: Entry) {
    e.PerformerSelected? && head.movementId == e.movementId && head.performer == e.performer
    && head.scoreRevision == e.scoreRevision
  }

  lemma {:induction false} HeadUpTo(revision: nat, journal: seq<Entry>, f: Facts, l: Records)
    requires Reduced(Empty(revision), journal).Some?
    requires forall e | e in journal :: SelectedBy(f, e) && (e.PerformerSelected? ==> e.attemptId in l.attempts)
    ensures var head := HeadOf(f, l, Noted(NO_FACTS, journal).order);
      && (head.Some? <==> exists e | e in journal :: Stands(l, e))
      && (head.Some? ==> exists i: nat :: LastStanding(l, journal, i) && HeadIsOf(head.value, journal[i]))
    decreases |journal|
  {
    if journal != [] {
      var n := |journal| - 1;
      var before, e := journal[..n], journal[n];
      HeadUpTo(revision, before, f, l);
      JournalsAgree(revision, before);
      NoteSelects(Reduced(Empty(revision), before).value, Noted(NO_FACTS, before), e, "");
      assert journal == before + [e] && SelectedBy(f, e);
      HeadNext(f, l, Noted(NO_FACTS, before).order, e);
      var head := HeadOf(f, l, Noted(NO_FACTS, journal).order);
      hide Reduce, Note, Agree, HeadOf, Stands, HeadIsOf;
      if Stands(l, e) {
        assert LastStanding(l, journal, n) && HeadIsOf(head.value, journal[n]);
      } else {
        forall i: nat | i < n ensures LastStanding(l, journal, i) <==> LastStanding(l, before, i) {
        }
        if head.Some? {
          var i: nat :| LastStanding(l, before, i) && HeadIsOf(head.value, before[i]);
          assert LastStanding(l, journal, i) && HeadIsOf(head.value, journal[i]);
        }
      }
    }
  }

  lemma HeadNext(f: Facts, l: Records, order: seq<Id>, e: Entry)
    requires SelectedBy(f, e) && (e.PerformerSelected? ==> e.attemptId in l.attempts)
    ensures var head := HeadOf(f, l, order + if e.PerformerSelected? then [e.attemptId] else []);
      && (Stands(l, e) ==> head.Some? && HeadIsOf(head.value, e))
      && (!Stands(l, e) ==> head == HeadOf(f, l, order))
  {
    assert order + [] == order;
    if e.PerformerSelected? {
      assert (order + [e.attemptId])[..|order|] == order;
    }
  }

  /** The head attempt is the one selected last among those of the current
      revision that were not superseded, as its entry selected it. */
  lemma HeadIs(revision: nat, journal: seq<Entry>)
    requires Reduced(Empty(revision), journal).Some?
    ensures var l, f := Reduced(Empty(revision), journal).value, Noted(NO_FACTS, journal);
      var head := HeadOf(f, l, f.order);
      && (head.Some? <==> exists e | e in journal :: Stands(l, e))
      && (head.Some? ==> exists i: nat :: LastStanding(l, journal, i) && HeadIsOf(head.value, journal[i]))
  {
    hide Reduce, Note, Brings;
    var l, f := Reduced(Empty(revision), journal).value, Noted(NO_FACTS, journal);
    AllSelectedBy(revision, journal);
    forall e | e in journal && e.PerformerSelected? ensures e.attemptId in l.attempts {
      SelectedIs(revision, journal, e.attemptId);
      assert Brings(e, e.attemptId, Starting) by {
        SelectionBrings(e);
      }
    }
    HeadUpTo(revision, journal, f, l);
  }

  lemma SelectionBrings(e: Entry)
    ensures e.PerformerSelected? ==> Brings(e, e.attemptId, Starting)
  {
  }
}
