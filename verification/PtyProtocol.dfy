/** The life of one PTY session under concurrency. Claims, reclaims and the reaper
    take two locks in separate sections; each section is one move, and a schedule
    is any sequence of moves. Time is a counter of seconds. */
module PtyProtocol {
  import opened Text

  /** The seconds an unclaimed session is kept, and an attached one without activity. */
  const PENDING: nat := 30
  const IDLE: nat := 300

  datatype Stage = Pending(deadline: nat) | Attached(deadline: nat) | Reclaimed

  predicate Expired(stage: Stage, now: nat) {
    !stage.Reclaimed? && now >= stage.deadline
  }

  /** A claim: `Looked` has the session, `Passed` has moved its stage, `Won` runs with
      the attachment, `TooLate` passed but found the attachment gone. `late` records
      that the claim started when the session was already reclaimed. */
  datatype Phase = Looked | Passed | Won | Left | TooLate | Refused

  datatype Claim = Claim(scope: string, late: bool, phase: Phase)

  /** A reclaim: only one that moves the stage goes on to release and kill. */
  datatype Reclaim = Begun | Gated | Released | Cancelled | Done

  /** What the reaper holds after sampling: the deadline it saw and when. */
  datatype Reaper = Idle | Sampled(deadline: nat, at: nat)

  datatype State = State(
    scope: string,
    now: nat,
    stage: Stage,
    attachment: bool,
    stopped: bool,
    killer: bool,
    kills: nat,
    inTable: bool,
    claims: seq<Claim>,
    reclaims: seq<Reclaim>,
    reaper: Reaper,
    dropped: bool
  )

  datatype Move =
    | Tick
    | StartClaim(caller: string)
    | ClaimStage(claim: nat)
    | ClaimTake(claim: nat)
    | Touch(claim: nat)
    | Leave(claim: nat)
    | ReclaimStep(reclaim: nat)
    | Retain
    | Sample
    | Reap
    | Drop

  function Spawned(scope: string, now: nat): State {
    State(scope, now, Pending(now + PENDING), true, false, true, 0, true, [], [], Idle, false)
  }

  /** Killing takes the killer, so it works once. */
  function Killed(s: State): State {
    if s.killer then s.(killer := false, kills := s.kills + 1) else s
  }

  predicate AtPhase(s: State, i: nat, phase: Phase) {
    i < |s.claims| && s.claims[i].phase == phase
  }

  function Moved(s: State, i: nat, phase: Phase): State
    requires i < |s.claims|
  {
    s.(claims := s.claims[i := s.claims[i].(phase := phase)])
  }

  /** One section of a reclaim. */
  function Reclaiming(s: State, i: nat): Option<State>
    requires i < |s.reclaims|
  {
    match s.reclaims[i]
    case Begun =>
      if s.stage.Reclaimed? then Some(s.(reclaims := s.reclaims[i := Done]))
      else Some(s.(stage := Reclaimed, reclaims := s.reclaims[i := Gated]))
    case Gated => Some(s.(attachment := false, reclaims := s.reclaims[i := Released]))
    case Released => Some(s.(stopped := true, reclaims := s.reclaims[i := Cancelled]))
    case Cancelled => Some(Killed(s).(reclaims := s.reclaims[i := Done]))
    case Done => None
  }

  /** Nobody holds the session any more. */
  predicate Unheld(s: State) {
    && !s.inTable && s.reaper.Idle?
    && (forall i :: 0 <= i < |s.reclaims| ==> s.reclaims[i].Done?)
    && forall i :: 0 <= i < |s.claims| ==>
                     s.claims[i].phase.Refused? || s.claims[i].phase.TooLate? || s.claims[i].phase.Left?
  }

  function Apply(s: State, move: Move): Option<State> {
    if s.dropped then None
    else
      match move
      case Tick => Some(s.(now := s.now + 1))
      case StartClaim(caller) =>
        if s.inTable then Some(s.(claims := s.claims + [Claim(caller, s.stage.Reclaimed?, Looked)])) else None
      case ClaimStage(i) =>
        if !AtPhase(s, i, Looked) then None
        else if s.claims[i].scope != s.scope || !s.stage.Pending? then Some(Moved(s, i, Refused))
        else Some(Moved(s, i, Passed).(stage := Attached(s.now + IDLE)))
      case ClaimTake(i) =>
        if !AtPhase(s, i, Passed) then None
        else if s.attachment then Some(Moved(s, i, Won).(attachment := false))
        else Some(Moved(s, i, TooLate))
      case Touch(i) =>
        if !AtPhase(s, i, Won) then None
        else if s.stage.Attached? then Some(s.(stage := Attached(s.now + IDLE)))
        else Some(s)
      case Leave(i) =>
        if !AtPhase(s, i, Won) then None
        else Some(Moved(s, i, Left).(reclaims := s.reclaims + [Begun]))
      case ReclaimStep(i) => if i < |s.reclaims| then Reclaiming(s, i) else None
      case Retain => if s.inTable && s.stage.Reclaimed? then Some(s.(inTable := false)) else None
      case Sample =>
        if s.inTable && s.reaper.Idle? && Expired(s.stage, s.now)
        then Some(s.(reaper := Sampled(s.stage.deadline, s.now)))
        else None
      case Reap =>
        if s.reaper.Sampled? then Some(s.(reaper := Idle, reclaims := s.reclaims + [Begun])) else None
      case Drop => if Unheld(s) then Some(Killed(s).(dropped := true)) else None
  }

  function Execute(s: State, moves: seq<Move>): Option<State> {
    if moves == [] then Some(s)
    else
      var before := Execute(s, moves[..|moves| - 1]);
      if before.None? then None else Apply(before.value, moves[|moves| - 1])
  }

  predicate Gate(r: Reclaim) {
    r.Gated? || r.Released? || r.Cancelled?
  }

  /** A claim that moved the stage. */
  predicate Entered(c: Claim) {
    c.phase.Passed? || c.phase.Won? || c.phase.Left? || c.phase.TooLate?
  }

  /** A claim that got the attachment. */
  predicate Obtained(c: Claim) {
    c.phase.Won? || c.phase.Left?
  }

  ghost predicate ClaimsSound(s: State) {
    && (forall i :: 0 <= i < |s.claims| && Entered(s.claims[i]) ==>
          !s.stage.Pending? && s.claims[i].scope == s.scope && !s.claims[i].late)
    && (forall i :: 0 <= i < |s.claims| && s.claims[i].late ==> s.stage.Reclaimed?)
    && (forall i, j :: 0 <= i < j < |s.claims| ==> !(Entered(s.claims[i]) && Entered(s.claims[j])))
    && (forall i :: 0 <= i < |s.claims| && Obtained(s.claims[i]) ==> !s.attachment)
    && (forall i :: 0 <= i < |s.claims| && s.claims[i].phase.TooLate? ==> s.stage.Reclaimed? && !s.attachment)
  }

  ghost predicate ReclaimsSound(s: State) {
    && (forall i :: 0 <= i < |s.reclaims| && Gate(s.reclaims[i]) ==> s.stage.Reclaimed?)
    && (forall i, j :: 0 <= i < j < |s.reclaims| ==> !(Gate(s.reclaims[i]) && Gate(s.reclaims[j])))
    && (!s.attachment ==> s.stage.Reclaimed? || exists i :: 0 <= i < |s.claims| && Obtained(s.claims[i]))
    && (s.stopped ==> !s.attachment && s.stage.Reclaimed?)
    && (forall i :: 0 <= i < |s.reclaims| && (s.reclaims[i].Released? || s.reclaims[i].Cancelled?) ==> !s.attachment)
    && (forall i :: 0 <= i < |s.reclaims| && s.reclaims[i].Cancelled? ==> s.stopped)
    && (s.stage.Reclaimed? && (forall i :: 0 <= i < |s.reclaims| ==> !Gate(s.reclaims[i])) ==>
          !s.attachment && s.stopped && !s.killer)
  }

  ghost predicate Sound(s: State) {
    && ClaimsSound(s) && ReclaimsSound(s)
    && s.kills == (if s.killer then 0 else 1)
    && (s.killer || s.stopped)
    && (!s.inTable ==> s.stage.Reclaimed?)
  }

  lemma SpawnedSound(scope: string, now: nat)
    ensures Sound(Spawned(scope, now))
  {
  }

  /** The reclaim side does not care which claim is at which phase. */
  lemma ReclaimsFrame(s: State, t: State)
    requires ReclaimsSound(s) && t.killer == s.killer && t.stopped == s.stopped && t.attachment == s.attachment
    requires t.stage.Reclaimed? == s.stage.Reclaimed?
    requires t.reclaims == s.reclaims || t.reclaims == s.reclaims + [Begun]
    requires forall i :: 0 <= i < |s.claims| && Obtained(s.claims[i]) ==> i < |t.claims| && Obtained(t.claims[i])
    ensures ReclaimsSound(t)
  {
    assert forall i :: 0 <= i < |s.reclaims| ==> t.reclaims[i] == s.reclaims[i];
    assert forall i :: |s.reclaims| <= i < |t.reclaims| ==> t.reclaims[i] == Begun;
    if !s.attachment && !s.stage.Reclaimed? {
      var i :| 0 <= i < |s.claims| && Obtained(s.claims[i]);
      assert Obtained(t.claims[i]);
    }
  }

  lemma StartSound(s: State, caller: string)
    requires Sound(s)
    ensures Sound(s.(claims := s.claims + [Claim(caller, s.stage.Reclaimed?, Looked)]))
  {
    hide ReclaimsSound;
    ReclaimsFrame(s, s.(claims := s.claims + [Claim(caller, s.stage.Reclaimed?, Looked)]));
  }

  lemma RefuseSound(s: State, i: nat)
    requires Sound(s) && AtPhase(s, i, Looked)
    ensures Sound(Moved(s, i, Refused))
  {
    hide ReclaimsSound;
    ReclaimsFrame(s, Moved(s, i, Refused));
  }

  lemma EnterSound(s: State, i: nat)
    requires Sound(s) && AtPhase(s, i, Looked) && s.claims[i].scope == s.scope && s.stage.Pending?
    ensures Sound(Moved(s, i, Passed).(stage := Attached(s.now + IDLE)))
  {
    hide ReclaimsSound;
    ReclaimsFrame(s, Moved(s, i, Passed).(stage := Attached(s.now + IDLE)));
  }

  lemma TouchSound(s: State)
    requires Sound(s) && s.stage.Attached?
    ensures Sound(s.(stage := Attached(s.now + IDLE)))
  {
    hide ReclaimsSound;
    ReclaimsFrame(s, s.(stage := Attached(s.now + IDLE)));
  }

  lemma LeaveSound(s: State, i: nat)
    requires Sound(s) && AtPhase(s, i, Won)
    ensures Sound(Moved(s, i, Left).(reclaims := s.reclaims + [Begun]))
  {
    hide ReclaimsSound;
    ReclaimsFrame(s, Moved(s, i, Left).(reclaims := s.reclaims + [Begun]));
  }

  lemma TooLateSound(s: State, i: nat)
    requires Sound(s) && AtPhase(s, i, Passed) && !s.attachment
    ensures Sound(Moved(s, i, TooLate))
  {
    GoneWhilePassed(s, i);
    hide ReclaimsSound;
    ReclaimsFrame(s, Moved(s, i, TooLate));
  }

  /** Only a reclaim can have taken the attachment before the claim that passed. */
  lemma GoneWhilePassed(s: State, i: nat)
    requires Sound(s) && AtPhase(s, i, Passed) && !s.attachment
    ensures s.stage.Reclaimed?
  {
    assert Entered(s.claims[i]);
  }

  lemma WonSound(s: State, i: nat)
    requires Sound(s) && AtPhase(s, i, Passed) && s.attachment
    ensures Sound(Moved(s, i, Won).(attachment := false))
  {
    var t := Moved(s, i, Won).(attachment := false);
    assert Obtained(t.claims[i]);
  }

  lemma ClaimSound(s: State, move: Move)
    requires Sound(s) && Apply(s, move).Some?
    requires move.StartClaim? || move.ClaimStage? || move.ClaimTake? || move.Touch? || move.Leave?
    ensures Sound(Apply(s, move).value)
  {
    hide Sound, Moved, Reclaiming, Killed, Unheld;
    match move
    case StartClaim(caller) => StartSound(s, caller);
    case ClaimStage(i) =>
      if s.claims[i].scope != s.scope || !s.stage.Pending? {
        RefuseSound(s, i);
      } else {
        EnterSound(s, i);
      }
    case ClaimTake(i) =>
      if s.attachment {
        WonSound(s, i);
      } else {
        TooLateSound(s, i);
      }
    case Touch(i) =>
      if s.stage.Attached? {
        TouchSound(s);
      }
    case Leave(i) => LeaveSound(s, i);
  }

  lemma BegunSound(s: State, i: nat)
    requires Sound(s) && i < |s.reclaims| && s.reclaims[i].Begun?
    ensures s.stage.Reclaimed? ==> Sound(s.(reclaims := s.reclaims[i := Done]))
    ensures !s.stage.Reclaimed? ==> Sound(s.(stage := Reclaimed, reclaims := s.reclaims[i := Gated]))
  {
    hide Sound;
    if s.stage.Reclaimed? {
      RefusedSound(s, i);
    } else {
      BeganSound(s, i);
    }
  }

  lemma RefusedSound(s: State, i: nat)
    requires Sound(s) && i < |s.reclaims| && s.reclaims[i].Begun? && s.stage.Reclaimed?
    ensures Sound(s.(reclaims := s.reclaims[i := Done]))
  {
    var done := s.reclaims[i := Done];
    assert forall k :: 0 <= k < |s.reclaims| && k != i ==> done[k] == s.reclaims[k];
  }

  lemma BeganSound(s: State, i: nat)
    requires Sound(s) && i < |s.reclaims| && s.reclaims[i].Begun? && !s.stage.Reclaimed?
    ensures Sound(s.(stage := Reclaimed, reclaims := s.reclaims[i := Gated]))
  {
    var gated := s.reclaims[i := Gated];
    assert forall k :: 0 <= k < |s.reclaims| && k != i ==> gated[k] == s.reclaims[k];
    assert Gate(gated[i]);
  }

  lemma GatedSound(s: State, i: nat)
    requires Sound(s) && i < |s.reclaims| && s.reclaims[i].Gated?
    ensures Sound(s.(attachment := false, reclaims := s.reclaims[i := Released]))
  {
    var released := s.reclaims[i := Released];
    assert forall k :: 0 <= k < |s.reclaims| && k != i ==> released[k] == s.reclaims[k];
    assert Gate(s.reclaims[i]) && Gate(released[i]);
  }

  lemma ReleasedSound(s: State, i: nat)
    requires Sound(s) && i < |s.reclaims| && s.reclaims[i].Released?
    ensures Sound(s.(stopped := true, reclaims := s.reclaims[i := Cancelled]))
  {
    var cancelled := s.reclaims[i := Cancelled];
    assert forall k :: 0 <= k < |s.reclaims| && k != i ==> cancelled[k] == s.reclaims[k];
    assert Gate(s.reclaims[i]) && Gate(cancelled[i]);
  }

  lemma CancelledSound(s: State, i: nat)
    requires Sound(s) && i < |s.reclaims| && s.reclaims[i].Cancelled?
    ensures Sound(Killed(s).(reclaims := s.reclaims[i := Done]))
  {
    var done := s.reclaims[i := Done];
    assert forall k :: 0 <= k < |s.reclaims| && k != i ==> done[k] == s.reclaims[k];
    assert Gate(s.reclaims[i]);
  }

  lemma ReclaimSound(s: State, i: nat)
    requires Sound(s) && i < |s.reclaims| && Reclaiming(s, i).Some?
    ensures Sound(Reclaiming(s, i).value)
  {
    hide Sound, Killed;
    match s.reclaims[i]
    case Begun => BegunSound(s, i);
    case Gated => GatedSound(s, i);
    case Released => ReleasedSound(s, i);
    case Cancelled => CancelledSound(s, i);
    case Done =>
  }

  lemma OtherSound(s: State, move: Move)
    requires Sound(s) && Apply(s, move).Some?
    requires move.Tick? || move.Retain? || move.Sample? || move.Reap?
    ensures Sound(Apply(s, move).value)
  {
    hide ReclaimsSound, Reclaiming, Killed, Unheld;
    ReclaimsFrame(s, Apply(s, move).value);
  }

  /** By the time nobody holds the session it has been killed. */
  lemma DropSound(s: State)
    requires Sound(s) && Unheld(s)
    ensures !s.killer && Sound(Killed(s).(dropped := true))
  {
  }

  lemma ApplySound(s: State, move: Move)
    requires Sound(s) && Apply(s, move).Some?
    ensures Sound(Apply(s, move).value)
  {
    hide Sound, Reclaiming;
    match move
    case ReclaimStep(i) => ReclaimSound(s, i);
    case Tick => OtherSound(s, move);
    case Retain => OtherSound(s, move);
    case Sample => OtherSound(s, move);
    case Reap => OtherSound(s, move);
    case Drop => DropSound(s);
    case _ => ClaimSound(s, move);
  }

  lemma {:induction false} ExecuteSound(scope: string, now: nat, moves: seq<Move>)
    ensures var s := Execute(Spawned(scope, now), moves);
            s.Some? ==> Sound(s.value) && s.value.scope == scope
    decreases |moves|
  {
    hide Sound, Apply;
    if moves == [] {
      SpawnedSound(scope, now);
    } else {
      var front, last := moves[..|moves| - 1], moves[|moves| - 1];
      ExecuteSound(scope, now, front);
      var before := Execute(Spawned(scope, now), front);
      if before.Some? && Apply(before.value, last).Some? {
        ApplySound(before.value, last);
        StageForward(before.value, last);
      }
    }
  }

  /** Over every schedule: at most one claim obtains the attachment, with the
      matching scope and only if it started before the session was reclaimed; the
      kill runs at most once; the session leaves the table only once reclaimed. */
  lemma EverySchedule(scope: string, now: nat, moves: seq<Move>)
    ensures var r := Execute(Spawned(scope, now), moves);
            r.Some? ==>
              var s := r.value;
              && (forall i, j :: 0 <= i < j < |s.claims| ==> !(Obtained(s.claims[i]) && Obtained(s.claims[j])))
              && (forall i :: 0 <= i < |s.claims| && Obtained(s.claims[i]) ==>
                    s.claims[i].scope == scope && !s.claims[i].late)
              && s.kills <= 1
              && (!s.inTable ==> s.stage.Reclaimed?)
  {
    hide Execute, ReclaimsSound;
    ExecuteSound(scope, now, moves);
  }

  /** Once the session is reclaimed and no reclaim is under way, the attachment is
      gone, the client is stopped and the process was killed exactly once. */
  lemma ReclaimedIsReleased(scope: string, now: nat, moves: seq<Move>)
    ensures var r := Execute(Spawned(scope, now), moves);
            r.Some? && r.value.stage.Reclaimed? &&
            (forall i :: 0 <= i < |r.value.reclaims| ==> !Gate(r.value.reclaims[i])) ==>
              !r.value.attachment && r.value.stopped && r.value.kills == 1
  {
    hide Execute, ClaimsSound;
    ExecuteSound(scope, now, moves);
  }

  /** A client that left has begun a reclaim, and a reclaim that is past its beginning
      has found or made the session reclaimed. */
  ghost predicate LeaversReclaim(s: State) {
    && (forall i :: 0 <= i < |s.claims| && s.claims[i].phase.Left? ==> s.reclaims != [])
    && (forall i :: 0 <= i < |s.reclaims| && !s.reclaims[i].Begun? ==> s.stage.Reclaimed?)
  }

  lemma LeaversKept(s: State, move: Move)
    requires LeaversReclaim(s) && Apply(s, move).Some?
    ensures LeaversReclaim(Apply(s, move).value)
  {
    hide Apply;
    LeftBefore(s, move);
    BegunBefore(s, move);
  }

  /** Who has left had left before, or leaves and begins a reclaim. */
  lemma LeftBefore(s: State, move: Move)
    requires Apply(s, move).Some?
    ensures var t := Apply(s, move).value;
            && |t.reclaims| >= |s.reclaims| + (if move.Leave? then 1 else 0)
            && forall i :: 0 <= i < |t.claims| && t.claims[i].phase.Left? ==>
                             move.Leave? || (i < |s.claims| && s.claims[i].phase.Left?)
  {
    hide Unheld, Expired, Reclaiming, Killed;
    match move
    case ReclaimStep(i) =>
      ReclaimLeaves(s, i);
      ReclaimCount(s, i);
    case Drop => KilledLeaves(s);
    case _ =>
  }

  lemma ReclaimCount(s: State, i: nat)
    requires i < |s.reclaims| && Reclaiming(s, i).Some?
    ensures var t := Reclaiming(s, i).value;
            && |t.reclaims| == |s.reclaims| && (s.stage.Reclaimed? ==> t.stage.Reclaimed?)
            && (forall k :: 0 <= k < |s.reclaims| && k != i ==> t.reclaims[k] == s.reclaims[k])
            && (t.stage.Reclaimed? || !s.reclaims[i].Begun?)
  {
    KilledLeaves(s);
    hide Killed;
  }

  lemma BegunBefore(s: State, move: Move)
    requires LeaversReclaim(s) && Apply(s, move).Some?
    ensures var t := Apply(s, move).value;
            forall i :: 0 <= i < |t.reclaims| && !t.reclaims[i].Begun? ==> t.stage.Reclaimed?
  {
    hide Unheld, Expired, Reclaiming, Killed;
    match move
    case ReclaimStep(i) => ReclaimCount(s, i);
    case Drop => KilledLeaves(s);
    case _ =>
  }

  lemma {:induction false} LeaversAlways(scope: string, now: nat, moves: seq<Move>)
    ensures var r := Execute(Spawned(scope, now), moves); r.Some? ==> LeaversReclaim(r.value)
    decreases |moves|
  {
    hide Apply, LeaversReclaim;
    if moves == [] {
      NobodyLeft(scope, now);
    } else {
      var front := moves[..|moves| - 1];
      LeaversAlways(scope, now, front);
      var before := Execute(Spawned(scope, now), front);
      if before.Some? && Apply(before.value, moves[|moves| - 1]).Some? {
        LeaversKept(before.value, moves[|moves| - 1]);
      }
    }
  }

  lemma NobodyLeft(scope: string, now: nat)
    ensures LeaversReclaim(Spawned(scope, now))
  {
  }

  /** In every schedule a session whose client has left is reclaimed, released and
      killed once the reclaims begun have taken their steps, and each of them has a
      step to take until it is done. */
  lemma LeaverReclaims(scope: string, now: nat, moves: seq<Move>)
    ensures var r := Execute(Spawned(scope, now), moves);
            r.Some? && (exists i :: 0 <= i < |r.value.claims| && r.value.claims[i].phase.Left?) ==>
              var s := r.value;
              && ((forall i :: 0 <= i < |s.reclaims| ==> s.reclaims[i].Done?) ==>
                    s.stage.Reclaimed? && !s.attachment && s.stopped && s.kills == 1)
              && (!s.dropped ==> forall i: nat :: i < |s.reclaims| && !s.reclaims[i].Done? ==>
                                   Apply(s, ReclaimStep(i)).Some?)
  {
    hide Execute, Killed;
    LeaversAlways(scope, now, moves);
    ReclaimedIsReleased(scope, now, moves);
    var r := Execute(Spawned(scope, now), moves);
    if r.Some? && r.value.reclaims != [] && r.value.reclaims[0].Done? {
      assert r.value.stage.Reclaimed?;
    }
  }

  function Rank(stage: Stage): nat {
    match stage
    case Pending(_) => 0
    case Attached(_) => 1
    case Reclaimed => 2
  }

  ghost predicate Forward(s: State, t: State) {
    && Rank(s.stage) <= Rank(t.stage) && t.scope == s.scope
    && (t.stage.Pending? ==> t.stage == s.stage)
    && |s.claims| <= |t.claims| && (!s.inTable ==> !t.inTable)
  }

  /** The stage only moves forward, and a pending session keeps its deadline. */
  lemma StageForward(s: State, move: Move)
    requires Apply(s, move).Some?
    ensures Forward(s, Apply(s, move).value)
  {
    hide Reclaiming, Unheld, Expired;
    if move.ReclaimStep? {
      ReclaimForward(s, move.reclaim);
    }
  }

  lemma ReclaimForward(s: State, i: nat)
    requires i < |s.reclaims| && Reclaiming(s, i).Some?
    ensures Forward(s, Reclaiming(s, i).value)
  {
    hide Reclaiming;
    ReclaimLeaves(s, i);
  }

  /** What a section of a reclaim leaves alone. */
  lemma ReclaimLeaves(s: State, i: nat)
    requires i < |s.reclaims| && Reclaiming(s, i).Some?
    ensures var t := Reclaiming(s, i).value;
            && t.now == s.now && t.scope == s.scope && t.reaper == s.reaper
            && t.claims == s.claims && t.inTable == s.inTable
            && (t.stage == s.stage || t.stage.Reclaimed?)
  {
    hide Killed;
    KilledLeaves(s);
    match s.reclaims[i]
    case Begun =>
    case Gated =>
    case Released =>
    case Cancelled =>
    case Done =>
  }

  lemma KilledLeaves(s: State)
    ensures Killed(s) == s.(killer := Killed(s).killer, kills := Killed(s).kills)
  {
  }

  lemma {:induction false} ExecuteAppend(s: State, a: seq<Move>, b: seq<Move>)
    ensures Execute(s, a + b) == if Execute(s, a).None? then None else Execute(Execute(s, a).value, b)
    decreases |b|
  {
    hide Apply;
    if b == [] {
      assert a + b == a;
    } else {
      ExecuteAppend(s, a, b[..|b| - 1]);
      assert (a + b)[..|a + b| - 1] == a + b[..|b| - 1];
    }
  }

  lemma {:induction false} NeverBack(s: State, moves: seq<Move>)
    ensures var r := Execute(s, moves);
            r.Some? ==> Rank(s.stage) <= Rank(r.value.stage) && |s.claims| <= |r.value.claims|
    decreases |moves|
  {
    hide Apply;
    if moves != [] {
      NeverBack(s, moves[..|moves| - 1]);
      var before := Execute(s, moves[..|moves| - 1]);
      if before.Some? && Apply(before.value, moves[|moves| - 1]).Some? {
        StageForward(before.value, moves[|moves| - 1]);
      }
    }
  }

  /** Along a whole run the stage goes from pending to attached to reclaimed, or
      straight to reclaimed, and never back. */
  lemma StagesInOrder(s: State, a: seq<Move>, b: seq<Move>)
    requires Execute(s, a + b).Some?
    ensures Execute(s, a).Some?
    ensures Rank(Execute(s, a).value.stage) <= Rank(Execute(s, a + b).value.stage)
  {
    hide Execute, Rank;
    ExecuteAppend(s, a, b);
    NeverBack(Execute(s, a).value, b);
  }

  /** A claim moves the stage exactly when its scope matches and the stage is still
      pending; the deadline plays no part. */
  lemma ClaimIgnoresDeadline(s: State, i: nat)
    requires AtPhase(s, i, Looked) && !s.dropped
    ensures Apply(s, ClaimStage(i)).Some?
    ensures AtPhase(Apply(s, ClaimStage(i)).value, i, Passed) <==>
            s.claims[i].scope == s.scope && s.stage.Pending?
  {
  }

  function Ticks(n: nat): seq<Move> {
    seq(n, i => Tick)
  }

  lemma {:induction false} TicksPass(s: State, n: nat)
    requires !s.dropped
    ensures Execute(s, Ticks(n)) == Some(s.(now := s.now + n))
    decreases n
  {
    if n > 0 {
      TicksPass(s, n - 1);
      assert Ticks(n)[..n - 1] == Ticks(n - 1);
    }
  }

  lemma ExecuteThree(s: State, a: Move, b: Move, c: Move)
    ensures Execute(s, [a, b, c]) ==
            var x := Apply(s, a);
            var y := if x.None? then None else Apply(x.value, b);
            if y.None? then None else Apply(y.value, c)
  {
    hide Apply;
    assert [a, b, c][..2] == [a, b] && [a, b][..1] == [a] && [a][..0] == [];
    assert Execute(s, [a]) == Apply(s, a) by { assert Execute(s, []) == Some(s); }
  }

  /** The sections of a reclaim, with nothing in between, do what the method does:
      everything once, or nothing at all when the session is already reclaimed. */
  lemma ReclaimAlone(s: State, i: nat)
    requires !s.dropped && i < |s.reclaims| && s.reclaims[i].Begun?
    ensures s.stage.Reclaimed? ==> Execute(s, [ReclaimStep(i)]) == Some(s.(reclaims := s.reclaims[i := Done]))
    ensures !s.stage.Reclaimed? ==>
              Execute(s, [ReclaimStep(i), ReclaimStep(i), ReclaimStep(i)] + [ReclaimStep(i)]) ==
              Some(s.(stage := Reclaimed, attachment := false, stopped := true, killer := false,
                      kills := s.kills + (if s.killer then 1 else 0), reclaims := s.reclaims[i := Done]))
  {
    hide Execute;
    var step := ReclaimStep(i);
    ExecuteOne(s, step);
    if !s.stage.Reclaimed? {
      ExecuteAppend(s, [step, step, step], [step]);
      ExecuteThree(s, step, step, step);
      var cancelled := s.(stage := Reclaimed, attachment := false, stopped := true, reclaims := s.reclaims[i := Cancelled]);
      assert s.reclaims[i := Gated][i := Released][i := Cancelled] == s.reclaims[i := Cancelled];
      assert s.reclaims[i := Cancelled][i := Done] == s.reclaims[i := Done];
      ExecuteOne(cancelled, step);
    }
  }

  lemma ExecuteOne(s: State, a: Move)
    ensures Execute(s, [a]) == Apply(s, a)
  {
    hide Apply;
    assert [a][..0] == [] && Execute(s, []) == Some(s);
  }

  /** So a claim wins however long the deadline has passed. */
  lemma LateClaimWins(scope: string, wait: nat)
    requires wait >= PENDING
    ensures var r := Execute(Spawned(scope, 0), Ticks(wait));
            r.Some? && Expired(r.value.stage, r.value.now)
    ensures var r := Execute(Spawned(scope, 0), Ticks(wait) + [StartClaim(scope), ClaimStage(0), ClaimTake(0)]);
            r.Some? && AtPhase(r.value, 0, Won)
  {
    hide Execute;
    TicksPass(Spawned(scope, 0), wait);
    ExecuteAppend(Spawned(scope, 0), Ticks(wait), [StartClaim(scope), ClaimStage(0), ClaimTake(0)]);
    ExecuteThree(Spawned(scope, 0).(now := wait), StartClaim(scope), ClaimStage(0), ClaimTake(0));
  }

  /** A session claimed right after the reaper sampled it. */
  function ClaimedAfterSample(scope: string, wait: nat): State {
    State(scope, wait, Attached(wait + IDLE), true, false, true, 0, true,
          [Claim(scope, false, Passed)], [], Sampled(PENDING, wait), false)
  }

  lemma ClaimAfterSample(scope: string, wait: nat)
    requires wait >= PENDING
    ensures Execute(Spawned(scope, 0), Ticks(wait) + [Sample, StartClaim(scope), ClaimStage(0)]) ==
            Some(ClaimedAfterSample(scope, wait))
  {
    hide Execute, Reclaiming, Unheld;
    var looked: seq<Claim>, passed: seq<Claim> := [Claim(scope, false, Looked)], [Claim(scope, false, Passed)];
    assert [] + looked == looked && looked[0 := passed[0]] == passed;
    TicksPass(Spawned(scope, 0), wait);
    ExecuteAppend(Spawned(scope, 0), Ticks(wait), [Sample, StartClaim(scope), ClaimStage(0)]);
    ExecuteThree(Spawned(scope, 0).(now := wait), Sample, StartClaim(scope), ClaimStage(0));
  }

  /** The reaper reclaims a session it sampled even when that session was claimed
      in between and is no longer expired. */
  lemma ReaperDoesNotRecheck(scope: string, wait: nat)
    requires wait >= PENDING
    ensures var claimed := Execute(Spawned(scope, 0), Ticks(wait) + [Sample, StartClaim(scope), ClaimStage(0)]);
            && claimed.Some? && claimed.value.stage.Attached? && !Expired(claimed.value.stage, claimed.value.now)
            && var reaped := Apply(claimed.value, Reap);
               reaped.Some? && Apply(reaped.value, ReclaimStep(0)).Some?
               && Apply(reaped.value, ReclaimStep(0)).value.stage.Reclaimed?
  {
    hide Execute, Unheld, Ticks;
    ClaimAfterSample(scope, wait);
  }

  /** What the reaper sampled is still what it was, or has been renewed since. */
  ghost predicate SampleSound(s: State) {
    s.reaper.Sampled? ==>
      && s.reaper.deadline <= s.reaper.at <= s.now
      && (!s.stage.Reclaimed? ==> s.stage.deadline == s.reaper.deadline || s.stage.deadline >= s.reaper.at + IDLE)
  }

  lemma SampleKept(s: State, move: Move)
    requires SampleSound(s) && Apply(s, move).Some?
    ensures SampleSound(Apply(s, move).value)
  {
    hide Unheld, Reclaiming;
    if move.ReclaimStep? {
      ReclaimLeaves(s, move.reclaim);
    }
  }

  lemma {:induction false} SampleAlways(scope: string, now: nat, moves: seq<Move>)
    ensures var r := Execute(Spawned(scope, now), moves);
            r.Some? ==> SampleSound(r.value)
    decreases |moves|
  {
    hide Apply, SampleSound;
    if moves == [] {
      assert SampleSound(Spawned(scope, now)) by { NothingSampled(scope, now); }
    } else {
      var front, last := moves[..|moves| - 1], moves[|moves| - 1];
      SampleAlways(scope, now, front);
      var before := Execute(Spawned(scope, now), front);
      if before.Some? && Apply(before.value, last).Some? {
        SampleKept(before.value, last);
      }
    }
  }

  lemma NothingSampled(scope: string, now: nat)
    ensures SampleSound(Spawned(scope, now))
  {
  }

  /** In every schedule a session about to be reaped had passed its deadline when it
      was sampled; until an idle time has gone by since, it is still expired exactly
      when it carries the deadline that was sampled. */
  lemma {:induction false} ReapWasExpired(scope: string, now: nat, moves: seq<Move>)
    ensures var r := Execute(Spawned(scope, now), moves);
            r.Some? && Apply(r.value, Reap).Some? ==>
              var s := r.value;
              && s.reaper.Sampled? && s.reaper.deadline <= s.reaper.at <= s.now
              && (!s.stage.Reclaimed? ==> s.stage.deadline == s.reaper.deadline || s.stage.deadline >= s.reaper.at + IDLE)
              && (!s.stage.Reclaimed? && s.now < s.reaper.at + IDLE ==>
                    (Expired(s.stage, s.now) <==> s.stage.deadline == s.reaper.deadline))
  {
    hide Execute;
    SampleAlways(scope, now, moves);
  }

  /** A move that gives a session a new deadline: a claim that passes, or activity of
      the client that is attached. */
  predicate Renews(s: State, move: Move) {
    match move
    case ClaimStage(i) => AtPhase(s, i, Looked) && s.claims[i].scope == s.scope && s.stage.Pending?
    case Touch(i) => AtPhase(s, i, Won) && s.stage.Attached?
    case _ => false
  }

  /** When a run renewed the deadline last. */
  function LastRenewal(s: State, moves: seq<Move>): Option<nat>
    requires Execute(s, moves).Some?
  {
    if moves == [] then None
    else
      var front := moves[..|moves| - 1];
      var before := Execute(s, front).value;
      if Renews(before, moves[|moves| - 1]) then Some(before.now) else LastRenewal(s, front)
  }

  /** The deadline after a run: as it was, or an idle time after the last renewal. */
  lemma {:induction false} DeadlineAfter(s: State, moves: seq<Move>)
    requires !s.stage.Reclaimed? && Execute(s, moves).Some?
    ensures var t := Execute(s, moves).value;
            && s.now <= t.now
            && (!t.stage.Reclaimed? ==>
                  t.stage.deadline == if LastRenewal(s, moves).None? then s.stage.deadline
                                      else LastRenewal(s, moves).value + IDLE)
    decreases |moves|
  {
    hide Apply, Renews;
    if moves != [] {
      var front := moves[..|moves| - 1];
      DeadlineAfter(s, front);
      DeadlineNext(Execute(s, front).value, moves[|moves| - 1]);
    }
  }

  lemma DeadlineNext(s: State, move: Move)
    requires Apply(s, move).Some?
    ensures var t := Apply(s, move).value;
            && s.now <= t.now && (s.stage.Reclaimed? ==> t.stage.Reclaimed?)
            && (!t.stage.Reclaimed? ==>
                  t.stage.deadline == if Renews(s, move) then s.now + IDLE else s.stage.deadline)
  {
    hide Unheld, Reclaiming;
    if move.ReclaimStep? {
      ReclaimLeaves(s, move.reclaim);
    }
  }

  /** From the moment the reaper samples a session up to any later one before it is
      reclaimed, the section that reclaims it included: the session is still due
      exactly when nothing has renewed its deadline since, or the last renewal was
      an idle time ago. */
  lemma {:induction false} ReapIsDue(s: State, between: seq<Move>)
    requires Apply(s, Sample).Some? && Execute(Apply(s, Sample).value, between).Some?
    ensures var sampled := Apply(s, Sample).value;
            var t := Execute(sampled, between).value;
            !t.stage.Reclaimed? ==>
              (Expired(t.stage, t.now) <==>
                 || LastRenewal(sampled, between).None?
                 || t.now >= LastRenewal(sampled, between).value + IDLE)
  {
    hide Execute, LastRenewal;
    DeadlineAfter(Apply(s, Sample).value, between);
  }

  /** The reaper at work on a session nobody claims: it samples, reclaims and drops it
      from the table. */
  const REAPING: seq<Move> := [Sample, Reap, ReclaimStep(0), ReclaimStep(0), ReclaimStep(0), ReclaimStep(0), Retain]

  /** An unclaimed session is not sampled before its deadline; from then on the reaper
      reclaims it, kills its process once, and forgets it, and it can be dropped. */
  lemma UnclaimedExpires(scope: string, wait: nat)
    ensures var waited := Execute(Spawned(scope, 0), Ticks(wait));
            waited.Some? && (Apply(waited.value, Sample).Some? <==> wait >= PENDING)
    ensures wait >= PENDING ==>
              var r := Execute(Spawned(scope, 0), Ticks(wait) + REAPING);
              && r.Some? && r.value.stage.Reclaimed? && !r.value.attachment && r.value.stopped
              && r.value.kills == 1 && !r.value.inTable
              && Apply(r.value, Drop) == Some(r.value.(dropped := true))
  {
    hide Execute, Apply, REAPING;
    TicksPass(Spawned(scope, 0), wait);
    SampledWhenDue(Spawned(scope, 0), wait);
    if wait >= PENDING {
      ExecuteAppend(Spawned(scope, 0), Ticks(wait), REAPING);
      Reaped(Spawned(scope, 0).(now := wait));
    }
  }

  lemma SampledWhenDue(s: State, wait: nat)
    requires s == Spawned(s.scope, 0)
    ensures Apply(s.(now := wait), Sample).Some? <==> wait >= PENDING
  {
  }

  lemma Reaped(s: State)
    requires s == Spawned(s.scope, 0).(now := s.now) && s.now >= PENDING
    ensures var after := s.(stage := Reclaimed, attachment := false, stopped := true, killer := false, kills := 1,
                            inTable := false, reclaims := [Done]);
            && Execute(s, REAPING) == Some(after)
            && Apply(after, Drop) == Some(after.(dropped := true))
  {
    hide Execute;
    var step := ReclaimStep(0);
    var front, middle := [Sample, Reap], [step, step, step] + [step];
    assert REAPING == front + (middle + [Retain]);
    ExecuteAppend(s, front, middle + [Retain]);
    ExecuteTwo(s, Sample, Reap);
    var reaped := s.(reclaims := [Begun]);
    assert s.reclaims + [Begun] == [Begun] && [Begun][0 := Done] == [Done];
    assert Execute(s, front) == Some(reaped);
    ExecuteAppend(reaped, middle, [Retain]);
    ReclaimAlone(reaped, 0);
    ExecuteOne(Execute(reaped, middle).value, Retain);
  }

  lemma ExecuteTwo(s: State, a: Move, b: Move)
    ensures Execute(s, [a, b]) == var x := Apply(s, a); if x.None? then None else Apply(x.value, b)
  {
    hide Apply;
    assert [a, b][..1] == [a];
    ExecuteOne(s, a);
  }

  /** A session is dropped only when nobody holds it: it has left the table, every claim
      is over and every reclaim done, and its process has been killed once. */
  lemma {:induction false} DroppedIsUnheld(scope: string, now: nat, moves: seq<Move>)
    ensures var r := Execute(Spawned(scope, now), moves);
            r.Some? && r.value.dropped ==>
              var s := r.value;
              && !s.inTable && s.stage.Reclaimed? && s.kills == 1
              && (forall c :: c in s.claims ==> !c.phase.Looked? && !c.phase.Passed? && !c.phase.Won?)
              && (forall r :: r in s.reclaims ==> r.Done?)
    decreases |moves|
  {
    hide Apply, Sound;
    if moves != [] {
      var front, last := moves[..|moves| - 1], moves[|moves| - 1];
      var before := Execute(Spawned(scope, now), front);
      if before.Some? && Apply(before.value, last).Some? && Apply(before.value, last).value.dropped {
        ExecuteSound(scope, now, front);
        DropsUnheld(before.value, last);
      }
    }
  }

  lemma ReclaimKeepsHeld(s: State, i: nat)
    requires i < |s.reclaims| && Reclaiming(s, i).Some?
    ensures Reclaiming(s, i).value.dropped == s.dropped
  {
    hide Killed;
    KilledLeaves(s);
  }

  lemma DropsUnheld(s: State, move: Move)
    requires Sound(s) && Apply(s, move).Some? && Apply(s, move).value.dropped
    ensures var t := Apply(s, move).value;
            && !t.inTable && t.stage.Reclaimed? && t.kills == 1
            && (forall c :: c in t.claims ==> !c.phase.Looked? && !c.phase.Passed? && !c.phase.Won?)
            && (forall r :: r in t.reclaims ==> r.Done?)
  {
    hide ClaimsSound, ReclaimsSound, Reclaiming;
    if move.Drop? {
      KilledLeaves(s);
      DropSound(s);
    } else if move.ReclaimStep? {
      ReclaimKeepsHeld(s, move.reclaim);
    }
  }
}
