/**
 * One incident's status under concurrent PATCH requests and auto-resolution: the transition graph
 * (statemachine.go), the guarded update with its history (store.go) and the handler around it (handler.go).
 */
module IncidentStatus {
  import opened Common

  datatype Status = Open | Acknowledged | Resolved

  /** The allowed transitions. */
  predicate Validate(from: Status, to: Status) {
    match from
    case Open => to == Acknowledged || to == Resolved
    case Acknowledged => to == Resolved
    case Resolved => to == Open
  }

  datatype Incident = Incident(status: Status, acknowledgedAt: Option<int>, acknowledgedBy: Option<string>, resolvedAt: Option<int>)

  /** A status-change entry; the entry of creation has no old value. */
  datatype Change = Change(left: Option<Status>, entered: Status)

  /** The columns a transition writes. */
  function Moved(inc: Incident, to: Status, now: int, author: string): Incident {
    match to
    case Acknowledged => inc.(status := to, acknowledgedAt := Some(now), acknowledgedBy := Some(author))
    case Resolved => inc.(status := to, resolvedAt := Some(now))
    case Open => Incident(Open, None, None, None)
  }

  /** The columns auto-resolution writes, unless the incident is already resolved. */
  function AutoResolved(inc: Incident, now: int): Incident {
    if inc.status == Resolved then inc else inc.(status := Resolved, resolvedAt := Some(now))
  }

  datatype PatchError = NotFound | InvalidTransition | StatusConflict | StoreFailed

  /** What reading the incident of a request comes to. */
  datatype Reading = Found | Missing | Failed

  class IncidentRecord {
    var inc: Incident
    var history: seq<Change>

    constructor ()
      ensures inc == Incident(Open, None, None, None) && history == [Change(None, Open)]
    {
      inc := Incident(Open, None, None, None);
      history := [Change(None, Open)];
    }

    /** TransitionStatus: guarded by the expected status, with the history entry in the same transaction. */
    method TransitionStatus(to: Status, expected: Status, author: string, now: int, commitOk: bool)
      returns (r: Result<Incident, PatchError>)
      modifies this
      ensures r.Ok? <==> commitOk && old(inc).status == expected
      ensures r == Err(StatusConflict) <==> commitOk && old(inc).status != expected
      ensures r == Err(StoreFailed) <==> !commitOk
      ensures r.Ok? ==> r.value == inc == Moved(old(inc), to, now, author) && history == old(history) + [Change(Some(expected), to)]
      ensures r.Ok? ==>
                inc == match to
                       case Acknowledged => Incident(Acknowledged, Some(now), Some(author), old(inc).resolvedAt)
                       case Resolved => Incident(Resolved, old(inc).acknowledgedAt, old(inc).acknowledgedBy, Some(now))
                       case Open => Incident(Open, None, None, None)
      ensures r.Err? ==> inc == old(inc) && history == old(history)
    {
      if !commitOk {
        return Err(StoreFailed);
      }
      if inc.status != expected {
        return Err(StatusConflict);
      }
      match to {
        case Acknowledged => inc := inc.(status := Acknowledged, acknowledgedAt := Some(now), acknowledgedBy := Some(author));
        case Resolved => inc := inc.(status := Resolved, resolvedAt := Some(now));
        case Open => inc := inc.(status := Open, resolvedAt := None, acknowledgedAt := None, acknowledgedBy := None);
      }
      history := history + [Change(Some(expected), to)];
      return Ok(inc);
    }

    /** The closing half of MaybeResolve and the history entry its caller writes, which always says open to resolved. */
    method AutoResolve(now: int, historyOk: bool)
      modifies this
      ensures inc == AutoResolved(old(inc), now)
      ensures inc == if old(inc).status == Resolved then old(inc)
                     else Incident(Resolved, old(inc).acknowledgedAt, old(inc).acknowledgedBy, Some(now))
      ensures history == old(history) + if historyOk then [Change(Some(Open), Resolved)] else []
    {
      if inc.status != Resolved {
        inc := inc.(status := Resolved, resolvedAt := Some(now));
      }
      if historyOk {
        history := history + [Change(Some(Open), Resolved)];
      }
    }

    /** PatchStatus with nobody interfering; a status word outside the three is no transition. */
    method PatchStatus(reading: Reading, requested: Option<Status>, author: string, now: int, commitOk: bool)
      returns (r: Result<Incident, PatchError>)
      modifies this
      ensures r == Err(NotFound) <==> reading == Missing
      ensures var legal := requested.Some? && (old(inc).status, requested.value) in
                             {(Open, Acknowledged), (Open, Resolved), (Acknowledged, Resolved), (Resolved, Open)};
              && (r == Err(InvalidTransition) <==> reading == Found && !legal)
              && (r.Ok? <==> reading == Found && legal && commitOk)
              && (r == Err(StoreFailed) <==> reading == Failed || (reading == Found && legal && !commitOk))
      ensures r.Ok? ==> r.value == inc == Moved(old(inc), requested.value, now, author)
                        && history == old(history) + [Change(Some(old(inc).status), requested.value)]
      ensures r.Err? ==> inc == old(inc) && history == old(history)
      ensures old(Chained(inc, history)) ==> Chained(inc, history)
      ensures old(StampsAgree(inc)) ==> StampsAgree(inc)
    {
      if reading != Found {
        return Err(if reading == Missing then NotFound else StoreFailed);
      }
      var seen := inc.status;
      if requested.None? || !Validate(seen, requested.value) {
        return Err(InvalidTransition);
      }
      r := TransitionStatus(requested.value, seen, author, now, commitOk);
    }
  }

  /** Stamps say what the status says. */
  ghost predicate StampsAgree(inc: Incident) {
    && (inc.status == Resolved <==> inc.resolvedAt.Some?)
    && (inc.status == Open ==> inc.acknowledgedAt.None? && inc.acknowledgedBy.None?)
    && (inc.status == Acknowledged ==> inc.acknowledgedAt.Some? && inc.acknowledgedBy.Some?)
    && (inc.acknowledgedAt.Some? <==> inc.acknowledgedBy.Some?)
  }

  /** The history is an unbroken chain from creation to the current status. */
  ghost predicate Chained(inc: Incident, history: seq<Change>) {
    && history != [] && history[0].left == None
    && (forall i | 0 < i < |history| :: history[i].left == Some(history[i - 1].entered))
    && history[|history| - 1].entered == inc.status
  }

  // ---- Interleavings ----

  datatype Proc =
    | Idle
    | Validated(from: Status, to: Status, author: string)   // PATCH has read and validated
    | CountedNone                                           // MaybeResolve has counted no firing alerts
    | Closed                                                // its update is done; the history entry is still to write

  datatype Sys = Sys(inc: Incident, history: seq<Change>, procs: map<nat, Proc>, committed: seq<Change>)

  datatype Step =
    | PatchRead(p: nat, to: Status, author: string)
    | PatchCommit(p: nat, now: int)
    | CountNone(p: nat)
    | Close(p: nat, now: int)
    | WriteHistory(p: nat)
    | Abort(p: nat)

  function ProcOf(s: Sys, p: nat): Proc { if p in s.procs then s.procs[p] else Idle }

  predicate Enabled(s: Sys, step: Step) {
    match step
    case PatchRead(p, to, author) => ProcOf(s, p).Idle? && Validate(s.inc.status, to)
    case PatchCommit(p, now) => ProcOf(s, p).Validated?
    case CountNone(p) => ProcOf(s, p).Idle?
    case Close(p, now) => ProcOf(s, p).CountedNone?
    case WriteHistory(p) => ProcOf(s, p).Closed?
    case Abort(p) => true
  }

  /** `committed` records every change of status with what it changed; it guides no step. */
  function Exec(s: Sys, step: Step): Sys
    requires Enabled(s, step)
  {
    match step
    case PatchRead(p, to, author) => s.(procs := s.procs[p := Validated(s.inc.status, to, author)])
    case PatchCommit(p, now) =>
      var q := s.procs[p];
      if s.inc.status != q.from then s.(procs := s.procs[p := Idle])
      else s.(inc := Moved(s.inc, q.to, now, q.author), history := s.history + [Change(Some(q.from), q.to)],
              committed := s.committed + [Change(Some(s.inc.status), q.to)], procs := s.procs[p := Idle])
    case CountNone(p) => s.(procs := s.procs[p := CountedNone])
    case Close(p, now) =>
      s.(inc := AutoResolved(s.inc, now), procs := s.procs[p := Closed],
         committed := if s.inc.status == Resolved then s.committed else s.committed + [Change(Some(s.inc.status), Resolved)])
    case WriteHistory(p) => s.(history := s.history + [Change(Some(Open), Resolved)], procs := s.procs[p := Idle])
    case Abort(p) => s.(procs := s.procs[p := Idle])
  }

  /** A request's two steps in a row are PatchStatus. */
  lemma PatchInARow(s: Sys, p: nat, to: Status, author: string, now: int)
    requires ProcOf(s, p).Idle?
    ensures Enabled(s, PatchRead(p, to, author)) <==>
              (s.inc.status, to) in {(Open, Acknowledged), (Open, Resolved), (Acknowledged, Resolved), (Resolved, Open)}
    ensures Enabled(s, PatchRead(p, to, author)) ==>
              var read := Exec(s, PatchRead(p, to, author));
              && Enabled(read, PatchCommit(p, now))
              && var done := Exec(read, PatchCommit(p, now));
                 done.inc == Moved(s.inc, to, now, author) && done.history == s.history + [Change(Some(s.inc.status), to)]
  {
  }

  /** A closer's steps in a row are AutoResolve. */
  lemma CloseInARow(s: Sys, p: nat, now: int)
    requires ProcOf(s, p).Idle?
    ensures Enabled(s, CountNone(p))
    ensures var counted := Exec(s, CountNone(p));
            && Enabled(counted, Close(p, now))
            && var closed := Exec(counted, Close(p, now));
               && closed.inc == AutoResolved(s.inc, now) && closed.history == s.history && Enabled(closed, WriteHistory(p))
               && var noted := Exec(closed, WriteHistory(p));
                  noted.inc == closed.inc && noted.history == s.history + [Change(Some(Open), Resolved)]
  {
  }

  const CREATED := Sys(Incident(Open, None, None, None), [Change(None, Open)], map[], [])

  ghost predicate Run(states: seq<Sys>, steps: seq<Step>) {
    && |states| == |steps| + 1 && states[0] == CREATED
    && forall i | 0 <= i < |steps| :: Enabled(states[i], steps[i]) && states[i + 1] == Exec(states[i], steps[i])
  }

  ghost predicate Inv(s: Sys) {
    && StampsAgree(s.inc)
    && (forall p | p in s.procs && s.procs[p].Validated? :: Validate(s.procs[p].from, s.procs[p].to))
    && (forall c | c in s.committed :: c.left.Some? && Validate(c.left.value, c.entered))
  }

  lemma StepKeepsInv(s: Sys, step: Step)
    requires Inv(s) && Enabled(s, step)
    ensures Inv(Exec(s, step))
  {
  }

  lemma {:induction false} RunInv(states: seq<Sys>, steps: seq<Step>, i: nat)
    requires Run(states, steps) && i < |states|
    ensures Inv(states[i])
  {
    if i > 0 {
      RunInv(states, steps, i - 1);
      StepKeepsInv(states[i - 1], steps[i - 1]);
    }
  }

  /** Under any interleaving every committed change is an edge of the graph, and the stamps agree with the status. */
  lemma EdgesAndStamps(states: seq<Sys>, steps: seq<Step>, i: nat)
    requires Run(states, steps) && i < |states|
    ensures StampsAgree(states[i].inc)
    ensures forall c | c in states[i].committed ::
              c.left.Some? && (c.left.value, c.entered) in
                {(Open, Acknowledged), (Open, Resolved), (Acknowledged, Resolved), (Resolved, Open)}
  {
    RunInv(states, steps, i);
  }

  /** Step k takes the incident to the status, at the instant `now`. */
  predicate Enters(states: seq<Sys>, steps: seq<Step>, k: nat, to: Status, now: int)
    requires k < |steps| && |states| == |steps| + 1
  {
    && states[k].inc.status != to == states[k + 1].inc.status
    && ((steps[k].PatchCommit? && steps[k].now == now) || (steps[k].Close? && steps[k].now == now && to == Resolved))
  }

  /** A resolved incident carries the instant of the step that resolved it, and has been resolved since. */
  lemma {:induction false} ResolvedStamp(states: seq<Sys>, steps: seq<Step>, i: nat) returns (k: nat)
    requires Run(states, steps) && i < |states| && states[i].inc.status == Resolved
    ensures k < i && states[i].inc.resolvedAt.Some? && Enters(states, steps, k, Resolved, states[i].inc.resolvedAt.value)
    ensures forall m | k < m <= i :: states[m].inc.status == Resolved
  {
    RunInv(states, steps, i - 1);
    if states[i - 1].inc.status == Resolved {
      k := ResolvedStamp(states, steps, i - 1);
    } else {
      k := i - 1;
    }
  }

  lemma {:induction false} AuthorOfRequest(states: seq<Sys>, steps: seq<Step>, p: nat, i: nat) returns (r: nat)
    requires Run(states, steps) && i < |states| && ProcOf(states[i], p).Validated?
    ensures r < i && steps[r] == PatchRead(p, states[i].procs[p].to, states[i].procs[p].author)
    ensures states[r].inc.status == states[i].procs[p].from
  {
    if steps[i - 1].PatchRead? && steps[i - 1].p == p {
      r := i - 1;
    } else {
      r := AuthorOfRequest(states, steps, p, i - 1);
    }
  }

  /** An acknowledgement carries the instant of the request's commit and the author of the request, until a reopening. */
  lemma {:induction false} AcknowledgedStamp(states: seq<Sys>, steps: seq<Step>, i: nat) returns (r: nat, k: nat)
    requires Run(states, steps) && i < |states| && states[i].inc.acknowledgedAt.Some?
    ensures r < k < i && Enters(states, steps, k, Acknowledged, states[i].inc.acknowledgedAt.value)
    ensures steps[r].PatchRead? && steps[k].PatchCommit? && steps[r].p == steps[k].p && steps[r].to == Acknowledged
    ensures states[i].inc.acknowledgedBy == Some(steps[r].author)
    ensures forall m | k < m <= i :: states[m].inc.status != Open
  {
    RunInv(states, steps, i);
    RunInv(states, steps, i - 1);
    var s, step := states[i - 1], steps[i - 1];
    if step.PatchCommit? && s.inc.status == s.procs[step.p].from && s.procs[step.p].to == Acknowledged {
      k := i - 1;
      r := AuthorOfRequest(states, steps, step.p, k);
    } else {
      r, k := AcknowledgedStamp(states, steps, i - 1);
    }
  }

  ghost predicate ByHandOnly(steps: seq<Step>) { forall i | 0 <= i < |steps| :: !steps[i].Close? && !steps[i].WriteHistory? }

  /** Replaying the committed changes from creation always leads to the current status. */
  lemma {:induction false} CommittedReplays(states: seq<Sys>, steps: seq<Step>, i: nat)
    requires Run(states, steps) && i < |states|
    ensures Chained(states[i].inc, [Change(None, Open)] + states[i].committed)
  {
    if i > 0 {
      CommittedReplays(states, steps, i - 1);
      var before := [Change(None, Open)] + states[i - 1].committed;
      var after := [Change(None, Open)] + states[i].committed;
      assert after == before || after == before + [after[|after| - 1]];
    }
  }

  /** Without auto-resolution the written history is exactly the committed changes: an unbroken chain to the status. */
  lemma {:induction false} HistoryReplays(states: seq<Sys>, steps: seq<Step>, i: nat)
    requires Run(states, steps) && i < |states| && ByHandOnly(steps)
    ensures states[i].history == [Change(None, Open)] + states[i].committed
    ensures Chained(states[i].inc, states[i].history)
  {
    CommittedReplays(states, steps, i);
    if i > 0 {
      HistoryReplays(states, steps, i - 1);
    }
  }

  // ---- What auto-resolution does to the history ----

  /** Each entry leaves the status the one before entered, starting from creation. */
  ghost predicate LinksOk(history: seq<Change>) {
    && history != [] && history[0] == Change(None, Open)
    && forall i | 0 < i < |history| :: history[i].left == Some(history[i - 1].entered)
  }

  function Last(history: seq<Change>): Status
    requires history != []
  {
    history[|history| - 1].entered
  }

  function Replayed(s: Sys): seq<Change> { [Change(None, Open)] + s.committed }

  lemma LinksOfPrefix(history: seq<Change>, c: Change)
    requires history != []
    ensures LinksOk(history + [c]) <==> LinksOk(history) && c.left == Some(Last(history))
  {
    var longer := history + [c];
    assert forall i | 0 <= i < |history| :: longer[i] == history[i];
    assert longer[|history|] == c;
  }

  /** How the written history stands: complete, one closing entry short, one ahead, or beyond repair. */
  datatype Tally = Even | Owed | Ahead | Broken

  /** The tally after a step, from the kind of step and the status it finds. */
  function NextTally(tally: Tally, s: Sys, step: Step): Tally
    requires Enabled(s, step)
  {
    match step
    case PatchCommit(p, now) => if s.inc.status == s.procs[p].from && tally != Even then Broken else tally
    case Close(p, now) =>
      if s.inc.status == Resolved then tally
      else if s.inc.status == Open && tally == Even then Owed
      else if s.inc.status == Open && tally == Ahead then Even
      else Broken
    case WriteHistory(p) =>
      if tally == Owed then Even
      else if tally == Even && s.inc.status == Open then Ahead
      else Broken
    case _ => tally
  }

  function TallyAt(states: seq<Sys>, steps: seq<Step>, i: nat): Tally
    requires i <= |steps| && |states| == |steps| + 1 && forall k | 0 <= k < |steps| :: Enabled(states[k], steps[k])
  {
    if i == 0 then Even else NextTally(TallyAt(states, steps, i - 1), states[i - 1], steps[i - 1])
  }

  /** What each tally says of the history. */
  ghost predicate Means(tally: Tally, s: Sys)
    requires s.history != []
  {
    match tally
    case Even => s.history == Replayed(s)
    case Owed => Replayed(s) == s.history + [Change(Some(Open), Resolved)] && s.inc.status == Resolved && Last(s.history) == Open
    case Ahead => s.history == Replayed(s) + [Change(Some(Open), Resolved)] && s.inc.status == Open
    case Broken => !LinksOk(s.history) || Mistaken(s)
  }

  /** The entry of a closing is missing that would have to say acknowledged where auto-resolution writes open. */
  ghost predicate Mistaken(s: Sys)
    requires s.history != []
  {
    Last(s.history) == Acknowledged && s.inc.status == Resolved
    && Replayed(s) == s.history + [Change(Some(Acknowledged), Resolved)]
  }

  lemma PatchTally(tally: Tally, s: Sys, s': Sys, c: Change)
    requires s.history != [] && Means(tally, s) && Chained(s.inc, Replayed(s))
    requires s'.history == s.history + [c] && s'.committed == s.committed + [c]
    requires c.left == Some(s.inc.status) && s'.inc.status == c.entered
    ensures Means(if tally == Even then Even else Broken, s')
  {
    LinksOfPrefix(s.history, c);
    assert tally == Ahead ==> Last(s.history) == Resolved;
    assert Replayed(s') == Replayed(s) + [c];
  }

  lemma CloseTally(tally: Tally, s: Sys, p: nat, now: int)
    requires s.history != [] && Means(tally, s) && Chained(s.inc, Replayed(s)) && ProcOf(s, p).CountedNone?
    ensures Means(NextTally(tally, s, Close(p, now)), Exec(s, Close(p, now)))
  {
    var s' := Exec(s, Close(p, now));
    assert Last(Replayed(s)) == s.inc.status;
    if s.inc.status != Resolved {
      assert Replayed(s') == Replayed(s) + [Change(Some(s.inc.status), Resolved)];
    }
  }

  lemma NoteTally(tally: Tally, s: Sys, p: nat)
    requires s.history != [] && Means(tally, s) && Chained(s.inc, Replayed(s)) && ProcOf(s, p).Closed?
    ensures Means(NextTally(tally, s, WriteHistory(p)), Exec(s, WriteHistory(p)))
  {
    LinksOfPrefix(s.history, Change(Some(Open), Resolved));
    assert Last(Replayed(s)) == s.inc.status;
    assert tally == Ahead ==> Last(s.history) == Resolved;
  }

  lemma StepTally(tally: Tally, s: Sys, step: Step)
    requires Enabled(s, step) && s.history != [] && Means(tally, s) && Chained(s.inc, Replayed(s))
    ensures Means(NextTally(tally, s, step), Exec(s, step))
  {
    match step
    case PatchCommit(p, now) =>
      if s.inc.status == s.procs[p].from {
        PatchTally(tally, s, Exec(s, step), Change(Some(s.inc.status), s.procs[p].to));
      }
    case Close(p, now) => CloseTally(tally, s, p, now);
    case WriteHistory(p) => NoteTally(tally, s, p);
    case _ =>
  }

  lemma {:induction false} TallyHolds(states: seq<Sys>, steps: seq<Step>, i: nat)
    requires Run(states, steps) && i < |states|
    ensures states[i].history != [] && states[i].history[0] == Change(None, Open)
    ensures Means(TallyAt(states, steps, i), states[i])
  {
    if i > 0 {
      TallyHolds(states, steps, i - 1);
      CommittedReplays(states, steps, i - 1);
      StepTally(TallyAt(states, steps, i - 1), states[i - 1], steps[i - 1]);
    }
  }

  /**
   * At any point of any run, with any number of closers, lost and late entries: replaying the history is an unbroken
   * chain from creation to the current status exactly when the history is the committed changes.
   */
  lemma HistoryExact(states: seq<Sys>, steps: seq<Step>, i: nat)
    requires Run(states, steps) && i < |states|
    ensures Chained(states[i].inc, states[i].history) <==> states[i].history == Replayed(states[i])
  {
    TallyHolds(states, steps, i);
    CommittedReplays(states, steps, i);
  }

  /**
   * Any number of closings: the history is a chain exactly when the tally of the steps so far is even. A closing of an
   * open incident must be answered by one entry, or have been announced by one, before any request commits.
   */
  lemma TallyExact(states: seq<Sys>, steps: seq<Step>, i: nat)
    requires Run(states, steps) && i < |states|
    ensures Chained(states[i].inc, states[i].history) <==> TallyAt(states, steps, i) == Even
  {
    TallyHolds(states, steps, i);
    CommittedReplays(states, steps, i);
  }

  /** Steps i + 1 to j - 1 neither close the incident nor write a closing entry. */
  ghost predicate OnlyByHand(steps: seq<Step>, i: nat, j: nat)
    requires j <= |steps|
  {
    forall k | i < k < j :: !steps[k].Close? && !steps[k].WriteHistory?
  }

  /** Between closings, history and committed changes grow by the same entries, each a change from the status before. */
  lemma {:induction false} GrowTogether(states: seq<Sys>, steps: seq<Step>, i: nat, j: nat) returns (added: seq<Change>)
    requires Run(states, steps) && i < j < |states| && OnlyByHand(steps, i, j)
    ensures states[j].history == states[i + 1].history + added && states[j].committed == states[i + 1].committed + added
    ensures added != [] ==> added[0].left == Some(states[i + 1].inc.status)
    ensures added == [] ==> states[j].inc.status == states[i + 1].inc.status
    decreases j
  {
    if j == i + 1 {
      added := [];
    } else {
      added := GrowTogether(states, steps, i, j - 1);
      var s, step := states[j - 1], steps[j - 1];
      if step.PatchCommit? && s.inc.status == s.procs[step.p].from {
        var c := Change(Some(s.inc.status), s.procs[step.p].to);
        assert states[j].history == states[i + 1].history + (added + [c]);
        assert states[j].committed == states[i + 1].committed + (added + [c]);
        added := added + [c];
      }
    }
  }

  /**
   * One closing, with requests interleaved: when its entry is written the history is a chain exactly when it closed an
   * open incident and no request was committed between the closing and its entry.
   */
  lemma AutoCloseKeepsChain(states: seq<Sys>, steps: seq<Step>, i: nat, j: nat)
    requires Run(states, steps) && i < j < |steps| && steps[i].Close? && steps[j].WriteHistory? && OnlyByHand(steps, i, j)
    requires Chained(states[i].inc, states[i].history)
    ensures Chained(states[j + 1].inc, states[j + 1].history)
            <==> states[i].inc.status == Open && |states[j].committed| == |states[i + 1].committed|
  {
    var added := GrowTogether(states, steps, i, j);
    HistoryExact(states, steps, i);
    HistoryExact(states, steps, j + 1);
    ClosedThenNoted(states[i], states[i + 1], states[j + 1], added);
  }

  lemma ClosedThenNoted(before: Sys, closed: Sys, noted: Sys, added: seq<Change>)
    requires before.history == Replayed(before) == closed.history
    requires closed.committed == if before.inc.status == Resolved then before.committed
                                 else before.committed + [Change(Some(before.inc.status), Resolved)]
    requires closed.inc.status == Resolved
    requires noted.history == closed.history + added + [Change(Some(Open), Resolved)]
    requires noted.committed == closed.committed + added && (added != [] ==> added[0].left == Some(Resolved))
    ensures noted.history == Replayed(noted) <==> before.inc.status == Open && added == []
  {
    var n := |before.history|;
    if before.inc.status == Resolved {
      assert |noted.history| > |Replayed(noted)|;
    } else {
      assert Replayed(noted)[n] == Change(Some(before.inc.status), Resolved);
      assert noted.history[n] == if added == [] then Change(Some(Open), Resolved) else added[0];
    }
  }

  /** A closing whose entry is lost leaves the history a chain exactly when it had nothing to close. */
  lemma LostEntryBreaksChain(states: seq<Sys>, steps: seq<Step>, i: nat, j: nat)
    requires Run(states, steps) && i < j < |states| && steps[i].Close? && OnlyByHand(steps, i, j)
    requires Chained(states[i].inc, states[i].history)
    ensures Chained(states[j].inc, states[j].history) <==> states[i].inc.status == Resolved
  {
    var added := GrowTogether(states, steps, i, j);
    HistoryExact(states, steps, i);
    HistoryExact(states, steps, j);
    assert |Replayed(states[j])| == |states[j].history| + if states[i].inc.status == Resolved then 0 else 1;
  }

  /** The shortest broken run: an open incident is closed and the entry is lost. */
  lemma LostEntryRun() returns (states: seq<Sys>, steps: seq<Step>)
    ensures Run(states, steps) && |steps| == 3
    ensures !Chained(states[3].inc, states[3].history)
  {
    steps := [CountNone(0), Close(0, 1), Abort(0)];
    var s1 := Exec(CREATED, steps[0]);
    var s2 := Exec(s1, steps[1]);
    states := [CREATED, s1, s2, Exec(s2, steps[2])];
  }
}
