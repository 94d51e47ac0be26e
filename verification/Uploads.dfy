/** Committing a staged upload: a data file and an info file, moved and removed in
    separate steps that other commits, the writer and failures can come between. */
module Uploads {
  import opened Text
  import opened Paths
  import Frames

  type Bytes = seq<Frames.byte>

  /** An id that is one path component, give or take trailing slashes and dots. */
  predicate OneName(id: string) {
    var parts := Parts(id);
    Normal(parts[0]) && forall k :: 0 < k < |parts| ==> parts[k] == "" || parts[k] == "."
  }

  /** An accepted id names one entry of the upload directory, and its info file
      stays in the directory too. */
  lemma AcceptedIdsStay(dir: seq<string>, id: string)
    requires OneName(id)
    ensures Walked(dir, Parts(id)) == dir + [Parts(id)[0]]
    ensures OnTop(dir, Walked(dir, Parts(id + ".info")), if '/' in id then 2 else 1)
  {
    hide Walked, Parts;
    var parts := Parts(id);
    var n := |parts| - 1;
    assert parts[..n + 1] == parts;
    WalkedName(dir, parts, n + 1);
    PartsExtended(id, ".info");
    OnePart(id);
    InfoWalk(dir, parts);
  }

  /** Which ids are accepted: a name without a slash, and an accepted id with a slash
      and nothing or a dot behind. */
  lemma AcceptedIds(id: string, last: string)
    requires '/' !in last
    ensures '/' !in id ==> (OneName(id) <==> id != "" && id != "." && id != "..")
    ensures OneName(id + ("/" + last)) <==> OneName(id) && (last == "" || last == ".")
  {
    hide Parts;
    if '/' !in id {
      PartsWord(id);
    }
    PartsAppend(id, last);
    var parts, all := Parts(id), Parts(id + ("/" + last));
    assert all == parts + [last];
    assert all[|parts|] == last && forall k :: 0 <= k < |parts| ==> all[k] == parts[k];
  }

  lemma {:induction false} PartsAppend(path: string, last: string)
    requires '/' !in last
    ensures Parts(path + ("/" + last)) == Parts(path) + [last]
    decreases |path|
  {
    hide Parts, Leading;
    var i := Leading(path, NotSlash);
    var whole := path + ("/" + last);
    if i == |path| {
      LeadingIs(whole, NotSlash, i);
      PartsSlash(whole, i);
      PartsWord(path);
      PartsWord(last);
      assert whole[..i] == path && whole[i + 1..] == last;
    } else {
      LeadingAppend(path, "/" + last, NotSlash);
      PartsSlash(path, i);
      PartsSlash(whole, i);
      PartsAppend(path[i + 1..], last);
      assert whole[..i] == path[..i] && whole[i + 1..] == path[i + 1..] + ("/" + last);
      Associative([path[..i]], Parts(path[i + 1..]), [last]);
    }
  }

  lemma InfoWalk(dir: seq<string>, parts: seq<string>)
    requires parts != [] && Normal(parts[0])
    requires forall k :: 0 < k < |parts| ==> parts[k] == "" || parts[k] == "."
    ensures OnTop(dir, Walked(dir, parts[..|parts| - 1] + [parts[|parts| - 1] + ".info"]), if |parts| == 1 then 1 else 2)
  {
    hide Walked;
    var n := |parts| - 1;
    var info := parts[..n] + [parts[n] + ".info"];
    assert info[..n] == parts[..n] && info[..n + 1] == info;
    WalkedStep(dir, info, n);
    if n > 0 {
      WalkedName(dir, parts, n);
    } else {
      WalkedNone(dir, parts);
    }
  }

  lemma {:induction false} WalkedName(dir: seq<string>, parts: seq<string>, n: nat)
    requires 0 < n <= |parts| && Normal(parts[0])
    requires forall k :: 0 < k < |parts| ==> parts[k] == "" || parts[k] == "."
    ensures Walked(dir, parts[..n]) == dir + [parts[0]]
  {
    hide Walked;
    WalkedStep(dir, parts, n - 1);
    if n == 1 {
      WalkedNone(dir, parts);
    } else {
      WalkedName(dir, parts, n - 1);
    }
  }

  lemma PartsWord(path: string)
    requires '/' !in path
    ensures Parts(path) == [path]
  {
    LeadingIs(path, NotSlash, |path|);
  }

  lemma {:induction false} PartsSlash(path: string, i: nat)
    requires i < |path| && i == Leading(path, NotSlash)
    ensures Parts(path) == [path[..i]] + Parts(path[i + 1..])
  {
    hide Leading;
  }

  /** Text without a slash extends the last part. */
  lemma {:induction false} PartsExtended(path: string, more: string)
    requires '/' !in more
    ensures var parts := Parts(path);
            Parts(path + more) == parts[..|parts| - 1] + [parts[|parts| - 1] + more]
    decreases |path|
  {
    hide Parts, Leading;
    var i := Leading(path, NotSlash);
    var all := path + more;
    if i == |path| {
      PartsWord(path);
      PartsWord(all);
      assert [path][..0] + [all] == [all];
    } else {
      LeadingAppend(path, more, NotSlash);
      PartsExtended(path[i + 1..], more);
      assert all[..i] == path[..i] && all[i + 1..] == path[i + 1..] + more;
      PartsSlash(path, i);
      PartsSlash(all, i);
      LastPart(path[..i], Parts(path[i + 1..]), more);
    }
  }

  lemma LastPart(first: string, rest: seq<string>, more: string)
    requires rest != []
    ensures var parts := [first] + rest;
            parts[..|parts| - 1] + [parts[|parts| - 1] + more] == [first] + (rest[..|rest| - 1] + [rest[|rest| - 1] + more])
  {
  }

  lemma OnePart(path: string)
    ensures |Parts(path)| == 1 <==> '/' !in path
  {
    var i := Leading(path, NotSlash);
    assert i < |path| ==> path[i] == '/';
  }

  /** What the info file says: the declared size, unless that is still deferred. */
  datatype Info = Info(size: nat, deferred: bool)

  predicate Finished(info: Info, staged: nat) {
    !info.deferred && staged == info.size
  }

  datatype Outcome = Placed | NotFound | Incomplete | Failed

  /** Where a commit is: what it has read so far, or how it ended. */
  datatype Phase = Started | Knows(info: Info) | Checked | Renamed | Ended(outcome: Outcome)

  /** `late` says that the upload had been placed when the commit started; `moved`
      that this commit's rename went through. */
  datatype Commit = Commit(destination: string, late: bool, moved: bool, phase: Phase)

  datatype Placement = Placement(destination: string, content: Bytes)

  /** `declared` is the size the client has fixed, `placed` every rename so far. */
  datatype State = State(
    data: Option<Bytes>,
    info: Option<Info>,
    declared: Option<nat>,
    placed: seq<Placement>,
    commits: seq<Commit>
  )

  /** The writer appends and declares until the upload is finished, or discards the
      files; any number of commits take their steps, each of which may meet a
      failure of the disk. A commit that is stopped takes no more steps. */
  datatype Move =
    | Append(more: Bytes)
    | Declare(size: nat)
    | DiscardData
    | DiscardInfo
    | Begin(destination: string)
    | Next(commit: nat, failure: bool)

  function Fresh(declared: Option<nat>): State {
    State(Some([]), Some(Info(if declared.Some? then declared.value else 0, declared.None?)), declared, [], [])
  }

  function Put(s: State, k: nat, phase: Phase): State
    requires k < |s.commits|
  {
    s.(commits := s.commits[k := s.commits[k].(phase := phase)])
  }

  /** The next step of a commit. */
  function Stepped(s: State, k: nat, failure: bool): Option<State>
    requires k < |s.commits|
  {
    match s.commits[k].phase
    case Started =>
      Some(Put(s, k, if failure then Ended(Failed)
                     else if s.info.None? then Ended(NotFound)
                     else Knows(s.info.value)))
    case Knows(info) =>
      Some(Put(s, k, if failure then Ended(Failed)
                     else if s.data.None? then Ended(NotFound)
                     else if !Finished(info, |s.data.value|) then Ended(Incomplete)
                     else Checked))
    case Checked =>
      if failure || s.data.None? then Some(Put(s, k, Ended(Failed)))
      else
        var commit := s.commits[k];
        Some(s.(data := None,
                placed := s.placed + [Placement(commit.destination, s.data.value)],
                commits := s.commits[k := commit.(moved := true, phase := Renamed)]))
    case Renamed =>
      if failure || s.info.None? then Some(Put(s, k, Ended(Failed)))
      else Some(Put(s, k, Ended(Placed)).(info := None))
    case Ended(_) => None
  }

  function Apply(s: State, move: Move): Option<State> {
    match move
    case Append(more) =>
      if s.data.None? || s.info.None? || Finished(s.info.value, |s.data.value|) then None
      else if !s.info.value.deferred && |s.data.value| + |more| > s.info.value.size then None
      else Some(s.(data := Some(s.data.value + more)))
    case Declare(size) =>
      if s.data.None? || s.info.None? || !s.info.value.deferred || size < |s.data.value| then None
      else Some(s.(info := Some(Info(size, false)), declared := Some(size)))
    case DiscardData => Some(s.(data := None))
    case DiscardInfo => Some(s.(info := None))
    case Begin(destination) =>
      Some(s.(commits := s.commits + [Commit(destination, s.placed != [], false, Started)]))
    case Next(k, failure) => if k < |s.commits| then Stepped(s, k, failure) else None
  }

  function Execute(s: State, moves: seq<Move>): Option<State> {
    if moves == [] then Some(s)
    else
      var before := Execute(s, moves[..|moves| - 1]);
      if before.None? then None else Apply(before.value, moves[|moves| - 1])
  }

  /** What one commit has seen is still so, or the upload is gone. */
  predicate CommitSound(s: State, c: Commit) {
    && (c.phase.Knows? && !c.phase.info.deferred ==> s.declared == Some(c.phase.info.size))
    && (c.phase.Checked? ==> s.declared.Some? && (s.data.Some? ==> |s.data.value| == s.declared.value))
    && (c.phase.Renamed? || c.phase == Ended(Placed) ==> c.moved)
    && (c.moved ==> c.phase.Renamed? || c.phase == Ended(Placed) || c.phase == Ended(Failed))
    && (c.moved ==> s.placed != [] && s.placed[0].destination == c.destination)
    && (c.late ==> s.placed != [] && !c.moved && !c.phase.Checked? && c.phase != Ended(Incomplete))
  }

  /** The upload itself: its info tells the declared size, and what has been placed
      is gone from staging and of that size. */
  predicate UploadSound(s: State) {
    && (s.info.Some? ==> s.declared == if s.info.value.deferred then None else Some(s.info.value.size))
    && (s.placed != [] ==>
          && |s.placed| == 1 && s.data.None?
          && s.declared == Some(|s.placed[0].content|))
  }

  predicate Sound(s: State) {
    && UploadSound(s)
    && (forall k :: 0 <= k < |s.commits| ==> CommitSound(s, s.commits[k]))
    && (forall j, k :: 0 <= j < |s.commits| && 0 <= k < |s.commits| && s.commits[j].moved && s.commits[k].moved ==> j == k)
    && (s.placed != [] ==> exists k :: 0 <= k < |s.commits| && s.commits[k].moved)
  }

  lemma UploadKept(s: State, move: Move)
    requires Sound(s) && Apply(s, move).Some?
    ensures UploadSound(Apply(s, move).value)
  {
    hide CommitSound, Stepped;
    if move.Next? {
      assert CommitSound(s, s.commits[move.commit]);
      StepKeepsUpload(s, move.commit, move.failure);
    }
  }

  lemma StepKeepsUpload(s: State, j: nat, failure: bool)
    requires UploadSound(s) && j < |s.commits| && CommitSound(s, s.commits[j]) && Stepped(s, j, failure).Some?
    ensures UploadSound(Stepped(s, j, failure).value)
  {
  }

  /** What a commit's step leaves alone: the other commits, the declared size, and,
      unless it places the upload itself, the data and what was placed. */
  lemma StepLeaves(s: State, j: nat, failure: bool)
    requires j < |s.commits| && Stepped(s, j, failure).Some?
    ensures var t := Stepped(s, j, failure).value;
            && |t.commits| == |s.commits| && t.declared == s.declared
            && (forall k :: 0 <= k < |s.commits| && k != j ==> t.commits[k] == s.commits[k])
            && t.commits[j].destination == s.commits[j].destination && t.commits[j].late == s.commits[j].late
            && (t.commits[j].moved == s.commits[j].moved || s.commits[j].phase.Checked?)
            && if s.commits[j].phase.Checked? && !failure && s.data.Some? then
                 && t.data.None? && t.commits[j].moved
                 && t.placed == s.placed + [Placement(s.commits[j].destination, s.data.value)]
               else
                 t.data == s.data && t.placed == s.placed && t.commits[j].moved == s.commits[j].moved
  {
  }

  /** A commit's own step keeps it sound. */
  lemma OwnKept(s: State, j: nat, failure: bool)
    requires UploadSound(s) && j < |s.commits| && CommitSound(s, s.commits[j]) && Stepped(s, j, failure).Some?
    ensures CommitSound(Stepped(s, j, failure).value, Stepped(s, j, failure).value.commits[j])
  {
  }

  lemma CommitKept(s: State, move: Move, k: nat)
    requires UploadSound(s) && k < |s.commits| && CommitSound(s, s.commits[k]) && Apply(s, move).Some?
    ensures CommitSound(Apply(s, move).value, Apply(s, move).value.commits[k])
  {
    hide Stepped;
    if move.Next? {
      StepLeaves(s, move.commit, move.failure);
      if move.commit == k {
        OwnKept(s, k, move.failure);
      }
    }
  }

  lemma CommitStarts(s: State, destination: string)
    ensures var t := Apply(s, Begin(destination)).value;
            CommitSound(t, t.commits[|s.commits|])
  {
  }

  lemma CommitCount(s: State, move: Move)
    requires Apply(s, move).Some?
    ensures |Apply(s, move).value.commits| == |s.commits| + if move.Begin? then 1 else 0
  {
    hide Stepped;
    if move.Next? {
      StepLeaves(s, move.commit, move.failure);
    }
  }

  /** Which commits have moved the upload, before and after a move. */
  lemma MoversKept(s: State, move: Move)
    requires Sound(s) && Apply(s, move).Some?
    ensures var t := Apply(s, move).value;
            && (forall j, k :: 0 <= j < |t.commits| && 0 <= k < |t.commits| && t.commits[j].moved && t.commits[k].moved ==> j == k)
            && (t.placed != [] ==> exists k :: 0 <= k < |t.commits| && t.commits[k].moved)
  {
    hide Stepped;
    var t := Apply(s, move).value;
    if move.Next? {
      StepLeaves(s, move.commit, move.failure);
    }
    if s.placed != [] {
      var k :| 0 <= k < |s.commits| && s.commits[k].moved;
      assert t.commits[k].moved;
    } else if t.placed != [] {
      assert t.commits[move.commit].moved;
    }
  }

  lemma ApplyKeeps(s: State, move: Move)
    requires Sound(s) && Apply(s, move).Some?
    ensures Sound(Apply(s, move).value)
  {
    hide Apply, UploadSound, CommitSound;
    UploadKept(s, move);
    MoversKept(s, move);
    CommitCount(s, move);
    forall k | 0 <= k < |Apply(s, move).value.commits|
      ensures CommitSound(Apply(s, move).value, Apply(s, move).value.commits[k])
    {
      if k < |s.commits| {
        CommitKept(s, move, k);
      } else {
        CommitStarts(s, move.destination);
      }
    }
  }

  lemma {:induction false} RunKeeps(s: State, moves: seq<Move>)
    requires Sound(s) && Execute(s, moves).Some?
    ensures Sound(Execute(s, moves).value)
    decreases |moves|
  {
    hide Apply, Sound;
    if moves != [] {
      RunKeeps(s, moves[..|moves| - 1]);
      ApplyKeeps(Execute(s, moves[..|moves| - 1]).value, moves[|moves| - 1]);
    }
  }

  /** Over every interleaving: the upload is placed at most once, whole, with the
      size that was declared; exactly the commit whose rename went through placed
      it, at its own destination; one that succeeds has placed it; and a commit that
      starts afterwards ends as not found unless the disk fails. */
  lemma EverySchedule(declared: Option<nat>, moves: seq<Move>)
    requires Execute(Fresh(declared), moves).Some?
    ensures var s := Execute(Fresh(declared), moves).value;
            && |s.placed| <= 1
            && (s.placed != [] ==> s.data.None? && s.declared == Some(|s.placed[0].content|))
            && (s.placed != [] <==> exists k :: 0 <= k < |s.commits| && s.commits[k].moved)
            && (forall k :: 0 <= k < |s.commits| && s.commits[k].moved ==>
                  s.placed[0].destination == s.commits[k].destination)
            && (forall j, k :: 0 <= j < |s.commits| && 0 <= k < |s.commits| && s.commits[j].moved && s.commits[k].moved ==>
                  j == k)
            && (forall k :: 0 <= k < |s.commits| && s.commits[k].phase == Ended(Placed) ==> s.commits[k].moved)
            && (forall k :: 0 <= k < |s.commits| && s.commits[k].late && s.commits[k].phase.Ended? ==>
                  s.commits[k].phase.outcome.NotFound? || s.commits[k].phase.outcome.Failed?)
  {
    hide Apply, Execute;
    RunKeeps(Fresh(declared), moves);
  }

  /** The size, once declared, and what has been placed never change. */
  lemma {:induction false} PlacedForGood(s: State, moves: seq<Move>)
    requires Sound(s) && Execute(s, moves).Some?
    ensures var t := Execute(s, moves).value;
            && (s.placed != [] ==> t.placed == s.placed)
            && (s.declared.Some? ==> t.declared == s.declared)
            && (s.data.None? ==> t.data.None?)
    decreases |moves|
  {
    hide Apply, Sound;
    if moves != [] {
      var front := moves[..|moves| - 1];
      PlacedForGood(s, front);
      RunKeeps(s, front);
      MoveForGood(Execute(s, front).value, moves[|moves| - 1]);
    }
  }

  lemma MoveForGood(s: State, move: Move)
    requires Sound(s) && Apply(s, move).Some?
    ensures var t := Apply(s, move).value;
            && (s.placed != [] ==> t.placed == s.placed)
            && (s.declared.Some? ==> t.declared == s.declared)
            && (s.data.None? ==> t.data.None?)
  {
  }

  /** The disk failures one commit may meet: reading the info, looking at the data,
      renaming it, removing the info. */
  datatype Failures = Failures(read: bool, look: bool, rename: bool, remove: bool)

  /** A commit with nothing in between renames exactly when the upload is there,
      finished, and no failure comes first. */
  predicate Renames(data: Option<Bytes>, info: Option<Info>, f: Failures) {
    && data.Some? && info.Some? && !info.value.deferred && |data.value| == info.value.size
    && !f.read && !f.look && !f.rename
  }

  predicate Reports(data: Option<Bytes>, info: Option<Info>, f: Failures, outcome: Outcome) {
    && (outcome.Placed? <==> Renames(data, info, f) && !f.remove)
    && (outcome.NotFound? <==> !f.read && (info.None? || (!f.look && data.None?)))
    && (outcome.Incomplete? <==> && !f.read && !f.look && data.Some? && info.Some?
                                 && (info.value.deferred || |data.value| != info.value.size))
  }

  class Uploads {
    var data: Option<Bytes>
    var info: Option<Info>
    var files: map<string, Bytes>

    constructor (data: Option<Bytes>, info: Option<Info>, files: map<string, Bytes>)
      ensures this.data == data && this.info == info && this.files == files
    {
      this.data, this.info, this.files := data, info, files;
    }

    /** Moves a finished upload onto the destination and spends it. Only the rename
        changes anything outside; failing before it leaves all as it was, and
        failing after it leaves the info file of an upload that is gone. */
    method Commit(destination: string, failures: Failures) returns (outcome: Outcome)
      modifies this
      ensures Reports(old(data), old(info), failures, outcome)
      ensures var renames := Renames(old(data), old(info), failures);
              && data == (if renames then None else old(data))
              && info == (if renames && !failures.remove then None else old(info))
              && files == if renames then old(files)[destination := old(data).value] else old(files)
    {
      if failures.read {
        return Failed;
      }
      if info.None? {
        return NotFound;
      }
      var known := info.value;
      if failures.look {
        return Failed;
      }
      if data.None? {
        return NotFound;
      }
      if !Finished(known, |data.value|) {
        return Incomplete;
      }
      if failures.rename {
        return Failed;
      }
      files, data := files[destination := data.value], None;
      if failures.remove {
        return Failed;
      }
      info := None;
      outcome := Placed;
    }
  }

  /** A commit's remaining steps, one after the other with nothing in between. */
  function Alone(s: State, k: nat, failures: seq<bool>): (t: State)
    requires k < |s.commits|
    ensures |t.commits| == |s.commits|
    decreases |failures|
  {
    if failures == [] || s.commits[k].phase.Ended? then s
    else Alone(Stepped(s, k, failures[0]).value, k, failures[1..])
  }

  /** The failures in the order of the steps. */
  function Listed(f: Failures): seq<bool> {
    [f.read] + ([f.look] + ([f.rename] + ([f.remove] + [])))
  }

  /** In the protocol a commit that runs alone does what the method does: so a
      failed rename can be retried, and once the upload is placed every commit
      that meets no failure reports it as not found. */
  lemma AloneCommits(s: State, destination: string, f: Failures)
    ensures var t := Alone(Apply(s, Begin(destination)).value, |s.commits|, Listed(f));
            var commit := t.commits[|s.commits|];
            var renames := Renames(s.data, s.info, f);
            && commit.phase.Ended? && Reports(s.data, s.info, f, commit.phase.outcome)
            && t.data == (if renames then None else s.data)
            && t.info == (if renames && !f.remove then None else s.info)
            && t.placed == if renames then s.placed + [Placement(destination, s.data.value)] else s.placed
  {
    hide Alone;
    var k := |s.commits|;
    var s0 := Apply(s, Begin(destination)).value;
    var s1 := Stepped(s0, k, f.read).value;
    AloneNext(s0, k, f.read, [f.look] + ([f.rename] + ([f.remove] + [])));
    AloneNext(s1, k, f.look, [f.rename] + ([f.remove] + []));
    if !s1.commits[k].phase.Ended? {
      var s2 := Stepped(s1, k, f.look).value;
      AloneNext(s2, k, f.rename, [f.remove] + []);
      if !s2.commits[k].phase.Ended? {
        var s3 := Stepped(s2, k, f.rename).value;
        AloneNext(s3, k, f.remove, []);
        if !s3.commits[k].phase.Ended? {
          AloneDone(Stepped(s3, k, f.remove).value, k);
        }
      }
    }
  }

  lemma AloneNext(s: State, k: nat, failure: bool, rest: seq<bool>)
    requires k < |s.commits|
    ensures Alone(s, k, [failure] + rest) ==
            if s.commits[k].phase.Ended? then s else Alone(Stepped(s, k, failure).value, k, rest)
  {
    assert ([failure] + rest)[1..] == rest;
  }

  lemma AloneDone(s: State, k: nat)
    requires k < |s.commits|
    ensures Alone(s, k, []) == s
  {
  }

  /** A commit whose rename went through succeeds exactly when the info file is still
      there for it to remove and the removal does not fail; the upload is placed
      either way. */
  lemma LastStep(s: State, k: nat, failure: bool)
    requires k < |s.commits| && s.commits[k].phase.Renamed?
    ensures var t := Apply(s, Next(k, failure));
            && t.Some? && t.value.placed == s.placed && t.value.data == s.data
            && t.value.commits[k].phase == Ended(if s.info.Some? && !failure then Placed else Outcome.Failed)
            && t.value.info == if failure then s.info else None
  {
    hide Finished;
  }

  /** Running alone is one of the schedules. */
  lemma {:induction false} AloneIsSchedule(s: State, k: nat, failures: seq<bool>) returns (moves: seq<Move>)
    requires k < |s.commits|
    ensures Execute(s, moves) == Some(Alone(s, k, failures))
    decreases |failures|
  {
    if failures == [] || s.commits[k].phase.Ended? {
      moves := [];
    } else {
      var rest := AloneIsSchedule(Stepped(s, k, failures[0]).value, k, failures[1..]);
      moves := [Next(k, failures[0])] + rest;
      RunFirst(s, Next(k, failures[0]), rest);
    }
  }

  lemma {:induction false} RunFirst(s: State, first: Move, rest: seq<Move>)
    requires Apply(s, first).Some?
    ensures Execute(s, [first] + rest) == Execute(Apply(s, first).value, rest)
    decreases |rest|
  {
    hide Apply;
    var all := [first] + rest;
    if rest == [] {
      assert all[..0] == [];
      assert Execute(s, all[..|all| - 1]) == Some(s);
    } else {
      RunFirst(s, first, rest[..|rest| - 1]);
      assert all[..|all| - 1] == [first] + rest[..|rest| - 1];
    }
  }
}
