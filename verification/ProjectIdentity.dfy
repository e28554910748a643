/**
 First writer wins: any number of callers create the project's identity at once,
 crash or fail at any step, and all that return agree on one record.
 */
module ProjectIdentity {
  import opened Wrappers

  const ATTEMPTS := 5

  datatype Record = Record(projectId: string, device: string, inode: string, createdAt: string)

  /** The identity file: white space only, text that does not decode, or a record. */
  datatype Content = Blank | Undecodable | Published(record: Record)

  datatype Failure = Io | Invalid | Unpublished | KeptRacing

  /** Where a caller stands; empty: this attempt read a blank file. */
  datatype Caller =
    | Reading(attempt: nat)
    | Proposing(attempt: nat, empty: bool)
    | Linking(attempt: nat, empty: bool, proposal: Record)
    | Syncing(record: Record)
    | Returned(record: Record, created: bool)
    | Failed(why: Failure)
    | Crashed

  /** proposals: every record a caller ever wrote to its temporary file; winner: the caller whose link was made. */
  datatype State = State(
    file: Option<Content>,
    callers: map<nat, Caller>,
    proposals: set<(nat, Record)>,
    winner: Option<nat>)

  /** Fault: the operation throws; Late: it throws after the link was made. */
  datatype Step =
    | Move(caller: nat, fault: bool)
    | Propose(caller: nat, record: Record)
    | LateFault(caller: nat)
    | Crash(caller: nat)

  predicate Done(c: Caller) { c.Returned? || c.Failed? || c.Crashed? }

  /** What reading the file means for a caller. */
  function AfterRead(attempt: nat, file: Option<Content>): Caller {
    match file
    case None => Proposing(attempt, false)
    case Some(Blank) => Proposing(attempt, true)
    case Some(Undecodable) => Failed(Invalid)
    case Some(Published(r)) => Returned(r, false)
  }

  /** A link to a name that exists fails; the next attempt reads again. */
  function AfterCollision(attempt: nat, empty: bool): Caller {
    if attempt + 1 < ATTEMPTS then Reading(attempt + 1)
    else Failed(if empty then Unpublished else KeptRacing)
  }

  function With(s: State, i: nat, c: Caller): State { s.(callers := s.callers[i := c]) }

  function Apply(s: State, step: Step): State {
    var i := step.caller;
    if i !in s.callers || Done(s.callers[i]) then s
    else match step
      case Crash(_) => With(s, i, Crashed)
      case Propose(_, r) =>
        if s.callers[i].Proposing? then
          With(s, i, Linking(s.callers[i].attempt, s.callers[i].empty, r)).(proposals := s.proposals + {(i, r)})
        else s
      case LateFault(_) =>
        if s.callers[i].Linking? && s.file.None? then
          With(s, i, Failed(Io)).(file := Some(Published(s.callers[i].proposal)), winner := Some(i))
        else With(s, i, Failed(Io))
      case Move(_, fault) =>
        if fault then With(s, i, Failed(Io))
        else match s.callers[i]
          case Reading(attempt) => With(s, i, AfterRead(attempt, s.file))
          case Linking(attempt, empty, r) =>
            if s.file.None? then With(s, i, Syncing(r)).(file := Some(Published(r)), winner := Some(i))
            else With(s, i, AfterCollision(attempt, empty))
          case Syncing(r) => With(s, i, Returned(r, true))
          case _ => s
  }

  function Run(s: State, steps: seq<Step>): State {
    if steps == [] then s else Apply(Run(s, steps[..|steps| - 1]), steps[|steps| - 1])
  }

  ghost predicate Initial(s: State) {
    s.proposals == {} && s.winner.None? && forall i :: i in s.callers ==> s.callers[i] == Reading(0)
  }

  // ----- What every step keeps -----

  /** Only a first attempt, or one that read a blank file, gets to propose. */
  ghost predicate MayPropose(file: Option<Content>, attempt: nat, empty: bool) {
    attempt < ATTEMPTS && file != Some(Undecodable) && if empty then file == Some(Blank) else attempt == 0
  }

  /** A caller on a later attempt has seen the name taken; one that is done with the link holds the file's record. */
  ghost predicate CallerFits(file: Option<Content>, c: Caller) {
    match c
    case Reading(attempt) => attempt < ATTEMPTS && (attempt > 0 ==> file.Some? && !file.value.Undecodable?)
    case Proposing(attempt, empty) => MayPropose(file, attempt, empty)
    case Linking(attempt, empty, _) => MayPropose(file, attempt, empty)
    case Syncing(r) => file == Some(Published(r))
    case Returned(r, _) => file == Some(Published(r))
    case Failed(why) =>
      && why != KeptRacing
      && (why == Unpublished ==> file == Some(Blank)) && (why == Invalid ==> file == Some(Undecodable))
    case Crashed => true
  }

  /** first: the file at the start. */
  ghost predicate Inv(s: State, first: Option<Content>) {
    && (first.Some? ==> s.file == first && s.winner.None?)
    && (first.None? && s.file.Some? ==>
          s.file.value.Published? && s.winner.Some? && (s.winner.value, s.file.value.record) in s.proposals)
    && (s.file.None? ==> s.winner.None?)
    && (forall i :: i in s.callers ==> CallerFits(s.file, s.callers[i]))
    && (forall i :: i in s.callers && s.callers[i].Linking? ==> (i, s.callers[i].proposal) in s.proposals)
    && (forall i :: i in s.callers && (s.callers[i].Syncing? || (s.callers[i].Returned? && s.callers[i].created)) ==>
          s.winner == Some(i))
    && (forall i :: i in s.callers && s.winner == Some(i) ==> HasLinked(s.callers[i]))
  }

  /** Where the caller that made the link can be. */
  predicate HasLinked(c: Caller) { c.Syncing? || (c.Returned? && c.created) || c.Failed? || c.Crashed? }

  /** A caller keeps fitting when others publish. */
  lemma FitsStill(file: Option<Content>, next: Option<Content>, c: Caller)
    requires CallerFits(file, c) && (if file.Some? then next == file else next.Some? ==> next.value.Published?)
    ensures CallerFits(next, c)
  {
  }

  /** The step that makes the link. */
  predicate Links(s: State, step: Step) {
    && step.caller in s.callers && s.callers[step.caller].Linking? && s.file.None?
    && (step.LateFault? || (step.Move? && !step.fault))
  }

  /** Only caller i differs, and what it now says fits the file and the winner. */
  ghost predicate OneMoved(s: State, next: State, i: nat) {
    && i in s.callers && i in next.callers
    && next.file == s.file && next.winner == s.winner && s.proposals <= next.proposals
    && next.callers == s.callers[i := next.callers[i]]
    && var c := next.callers[i];
    && CallerFits(next.file, c)
    && (c.Linking? ==> (i, c.proposal) in next.proposals)
    && (c.Syncing? || (c.Returned? && c.created) ==> next.winner == Some(i))
    && (next.winner == Some(i) ==> HasLinked(c))
  }

  lemma OtherStepMovesOne(s: State, step: Step, first: Option<Content>)
    requires Inv(s, first) && step.caller in s.callers && !Done(s.callers[step.caller]) && !Links(s, step)
    ensures OneMoved(s, Apply(s, step), step.caller)
  {
    var i, next := step.caller, Apply(s, step);
    assert CallerFits(s.file, s.callers[i]);
    assert s.callers == s.callers[i := s.callers[i]];
  }

  lemma OneMovedKeepsInv(s: State, next: State, i: nat, first: Option<Content>)
    requires Inv(s, first) && OneMoved(s, next, i)
    ensures Inv(next, first)
  {
    hide CallerFits;
    forall k | k in next.callers ensures CallerFits(next.file, next.callers[k]) {
      if k != i { assert next.callers[k] == s.callers[k]; }
    }
  }

  lemma StepKeepsInv(s: State, step: Step, first: Option<Content>)
    requires Inv(s, first)
    ensures Inv(Apply(s, step), first)
    ensures s.file.Some? ==> Apply(s, step).file == s.file
  {
    var i := step.caller;
    if i in s.callers && !Done(s.callers[i]) {
      if Links(s, step) {
        LinkKeepsInv(s, step, first);
      } else {
        OtherStepMovesOne(s, step, first);
        hide Inv, Apply, CallerFits;
        OneMovedKeepsInv(s, Apply(s, step), i, first);
      }
    } else {
      hide Inv;
    }
  }

  /** The one step that writes the file. */
  lemma LinkKeepsInv(s: State, step: Step, first: Option<Content>)
    requires Inv(s, first) && Links(s, step)
    ensures Inv(Apply(s, step), first)
  {
    var next := Apply(s, step);
    forall i | i in next.callers ensures CallerFits(next.file, next.callers[i]) {
      if i != step.caller { FitsStill(s.file, next.file, s.callers[i]); }
    }
  }

  lemma {:induction false} RunKeepsInv(s: State, steps: seq<Step>, first: Option<Content>)
    requires Inv(s, first)
    ensures Inv(Run(s, steps), first)
    ensures s.file.Some? ==> Run(s, steps).file == s.file
  {
    hide Inv, Apply;
    if steps != [] {
      RunKeepsInv(s, steps[..|steps| - 1], first);
      StepKeepsInv(Run(s, steps[..|steps| - 1]), steps[|steps| - 1], first);
    }
  }

  // ----- The theorems -----

  predicate IsAt(s: State, i: nat, c: Caller) { i in s.callers && s.callers[i] == c }

  /**
   All callers that return agree on the record in the file: the one there at the
   start, or a proposal of the one winner.
   */
  lemma Consensus(s: State, steps: seq<Step>, i: nat, j: nat)
    requires Initial(s) && i in Run(s, steps).callers && j in Run(s, steps).callers
    requires Run(s, steps).callers[i].Returned? && Run(s, steps).callers[j].Returned?
    ensures
      var end := Run(s, steps);
      && end.callers[i].record == end.callers[j].record && end.file == Some(Published(end.callers[i].record))
      && (s.file.Some? ==> end.file == s.file && !end.callers[i].created)
      && (s.file.None? ==> end.winner.Some? && (end.winner.value, end.callers[i].record) in end.proposals)
      && (end.callers[i].created <==> end.winner == Some(i))
  {
    RunKeepsInv(s, steps, s.file);
  }

  /** Whatever the file holds once it exists, blank or not, no later step changes it. */
  lemma FileIsNeverOverwritten(s: State, steps: seq<Step>, more: seq<Step>)
    requires Initial(s) && Run(s, steps).file.Some?
    ensures Run(Run(s, steps), more).file == Run(s, steps).file
  {
    RunKeepsInv(s, steps, s.file);
    RunKeepsInv(Run(s, steps), more, s.file);
  }

  /** A caller whose link lost to a published record returns that record on its next attempt. */
  lemma LoserReturnsWinner(s: State, steps: seq<Step>, i: nat, others: seq<Step>)
    requires Initial(s) && i in Run(s, steps).callers && Run(s, steps).callers[i].Linking?
    requires Run(s, steps).file.Some? && Run(s, steps).file.value.Published?
    requires forall k :: 0 <= k < |others| ==> others[k].caller != i
    ensures
      var lost := Apply(Run(s, steps), Move(i, false));
      && IsAt(lost, i, Reading(1))
      && IsAt(Apply(Run(lost, others), Move(i, false)), i, Returned(Run(s, steps).file.value.record, false))
  {
    var before := Run(s, steps);
    RunKeepsInv(s, steps, s.file);
    var lost := Apply(before, Move(i, false));
    LosesLink(before, i, s.file);
    hide Inv, Run, CallerFits, Apply;
    StepKeepsInv(before, Move(i, false), s.file);
    RunKeepsInv(lost, others, s.file);
    OthersLeaveCaller(lost, others, i);
    ReadsRecord(Run(lost, others), i, before.file.value.record);
  }

  lemma LosesLink(s: State, i: nat, first: Option<Content>)
    requires Inv(s, first) && i in s.callers && s.callers[i].Linking? && s.file.Some? && s.file.value.Published?
    ensures IsAt(Apply(s, Move(i, false)), i, Reading(1))
  {
    assert CallerFits(s.file, s.callers[i]);
  }

  lemma ReadsRecord(s: State, i: nat, record: Record)
    requires IsAt(s, i, Reading(1)) && s.file == Some(Published(record))
    ensures IsAt(Apply(s, Move(i, false)), i, Returned(record, false))
  {
  }

  lemma {:induction false} OthersLeaveCaller(s: State, steps: seq<Step>, i: nat)
    requires i in s.callers && forall k :: 0 <= k < |steps| ==> steps[k].caller != i
    ensures i in Run(s, steps).callers && Run(s, steps).callers[i] == s.callers[i]
  {
    if steps != [] { OthersLeaveCaller(s, steps[..|steps| - 1], i); }
  }

  /** Running out of attempts means a stranded blank file; racing alone never fails a caller. */
  lemma ExhaustionMeansStranded(s: State, steps: seq<Step>, i: nat)
    requires Initial(s) && i in Run(s, steps).callers && Run(s, steps).callers[i].Failed?
    ensures
      var why := Run(s, steps).callers[i].why;
      && why != KeptRacing
      && (why == Unpublished ==> s.file == Some(Blank))
      && (why == Invalid ==> s.file == Some(Undecodable))
  {
    RunKeepsInv(s, steps, s.file);
    assert CallerFits(Run(s, steps).file, Run(s, steps).callers[i]);
  }

  /** A caller whose link lost reads again, unless that was its fifth attempt. */
  lemma FiveAttempts(s: State, i: nat, attempt: nat, empty: bool, record: Record)
    requires IsAt(s, i, Linking(attempt, empty, record)) && s.file.Some?
    ensures attempt < 4 ==> IsAt(Apply(s, Move(i, false)), i, Reading(attempt + 1))
    ensures attempt >= 4 ==>
              IsAt(Apply(s, Move(i, false)), i, Failed(if empty then Unpublished else KeptRacing))
  {
  }

  // ----- The retry loop -----

  /** One caller's view of the shared directory; other callers act between its steps. */
  class IdentityRoot {
    var file: Option<Content>
    /** No operation of this caller fails. */
    const reliable: bool

    method Fault() returns (failed: bool)
      ensures reliable ==> !failed
    {
      failed := *;
      failed := failed && !reliable;
    }

    /** Other callers may publish while the name is free, and can do nothing else. */
    method Others()
      modifies this
      ensures if old(file).Some? then file == old(file) else file.Some? ==> file.value.Published?
    {
      var publish: bool := *;
      if publish && file.None? {
        var theirs: Record := *;
        file := Some(Published(theirs));
      }
    }

    /** linked: the record this caller made the file of. */
    method LoadOrCreateProjectIdentity() returns (r: Result<(Record, bool), Failure>, ghost linked: Option<Record>)
      modifies this
      ensures old(file).Some? ==> file == old(file)
      ensures r.Ok? ==> file == Some(Published(r.value.0)) && (r.value.1 ==> old(file).None?)
      ensures r.Ok? ==> linked == if r.value.1 then Some(r.value.0) else None
      ensures r.Err? ==>
                && r.error != KeptRacing
                && (r.error == Unpublished ==> old(file) == Some(Blank))
                && (r.error == Invalid ==> old(file) == Some(Undecodable))
      ensures reliable ==>
                if old(file) == Some(Blank) then r == Err(Unpublished)
                else if old(file) == Some(Undecodable) then r == Err(Invalid)
                else r.Ok?
    {
      linked := None;
      var lastError := KeptRacing;
      for attempt := 0 to ATTEMPTS
        invariant old(file).Some? ==> file == old(file)
        invariant old(file).None? && file.Some? ==> file.value.Published?
        invariant linked.None?
        invariant attempt > 0 ==> file.Some? && !file.value.Undecodable?
        invariant attempt > 1 ==> file == Some(Blank) && lastError == Unpublished
      {
        Others();
        var failed := Fault();
        if failed { return Err(Io), linked; }
        var existing := file;
        if existing.Some? {
          match existing.value
          case Published(record) => return Ok((record, false)), linked;
          case Undecodable => return Err(Invalid), linked;
          case Blank =>
        }
        var observedEmpty := existing.Some?;
        var record: Record := *;
        failed := Fault();
        if failed { return Err(Io), linked; }
        Others();
        failed := Fault();
        if failed { return Err(Io), linked; }
        if file.Some? {
          lastError := if observedEmpty then Unpublished else KeptRacing;
          continue;
        }
        file, linked := Some(Published(record)), Some(record);
        failed := Fault();
        if failed { return Err(Io), linked; }
        return Ok((record, true)), linked;
      }
      r := Err(lastError);
    }
  }
}
