/** The daemon's single-install state machine and its bounded history. */
module Installs {

  const INSTALL_HISTORY_CAP: nat := 25

  datatype Phase = Pending | CopyingFile | Installing | DoneOk | DoneFailed

  datatype Status = Status(
    phase: Phase, fromDevice: bool, percent: nat, bytesDone: nat, bytesTotal: nat, finished: bool)

  ghost function FinishedIds(m: map<nat, Status>): set<nat> {
    set id | id in m && m[id].finished
  }

  ghost function UnfinishedIds(m: map<nat, Status>): set<nat> {
    set id | id in m && !m[id].finished
  }

  /** `m'` is `m` less the oldest finished installs, so that at most the cap remains. */
  ghost predicate IsPruned(m: map<nat, Status>, m': map<nat, Status>) {
    && m'.Keys <= m.Keys && (forall id :: id in m' ==> m'[id] == m[id])
    && UnfinishedIds(m') == UnfinishedIds(m)
    && |FinishedIds(m')| == (if |FinishedIds(m)| <= INSTALL_HISTORY_CAP then |FinishedIds(m)| else INSTALL_HISTORY_CAP)
    && (forall kept, gone :: kept in FinishedIds(m') && gone in FinishedIds(m) && gone !in m' ==> gone < kept)
  }

  method Least(ids: set<nat>) returns (least: nat)
    requires ids != {}
    ensures least in ids && forall id :: id in ids ==> least <= id
  {
    least :| least in ids;
    var rest := ids - {least};
    while rest != {}
      invariant least in ids && rest <= ids && forall id :: id in ids && id !in rest ==> least <= id
    {
      var id :| id in rest;
      rest := rest - {id};
      if id < least {
        least := id;
      }
    }
  }

  /** `sort_unstable`: the ids in increasing order. */
  method Sorted(ids: set<nat>) returns (s: seq<nat>)
    ensures |s| == |ids| && (forall id :: id in s <==> id in ids)
    ensures forall i, j :: 0 <= i < j < |s| ==> s[i] < s[j]
  {
    s := [];
    var rest := ids;
    while rest != {}
      invariant rest <= ids && |s| + |rest| == |ids| && (forall id :: id in s <==> id in ids && id !in rest)
      invariant forall i, j :: 0 <= i < j < |s| ==> s[i] < s[j]
      invariant forall i, b :: 0 <= i < |s| && b in rest ==> s[i] < b
      decreases |rest|
    {
      var least := Least(rest);
      s, rest := s + [least], rest - {least};
    }
  }

  /** `prune_installs`. */
  method Prune(installs: map<nat, Status>) returns (m: map<nat, Status>)
    ensures IsPruned(installs, m) && |FinishedIds(m)| <= 25
  {
    m := installs;
    var done := set id | id in installs && installs[id].finished;
    assert done == FinishedIds(installs);
    if |done| <= INSTALL_HISTORY_CAP {
      return;
    }
    var order := Sorted(done);
    var surplus := |done| - INSTALL_HISTORY_CAP;
    for k := 0 to surplus
      invariant m == installs - Elements(order[..k])
    {
      assert Elements(order[..k + 1]) == Elements(order[..k]) + {order[k]};
      m := m - {order[k]};
    }
    PrunedByOrder(installs, m, order, surplus);
  }

  ghost function Elements(s: seq<nat>): set<nat> {
    set x | x in s
  }

  lemma {:induction false} ElementsCount(s: seq<nat>)
    requires forall i, j :: 0 <= i < j < |s| ==> s[i] < s[j]
    ensures |Elements(s)| == |s|
  {
    if s != [] {
      var n := |s| - 1;
      ElementsCount(s[..n]);
      assert Elements(s) == Elements(s[..n]) + {s[n]};
      assert s[n] !in s[..n];
    }
  }

  lemma PrunedByOrder(installs: map<nat, Status>, m: map<nat, Status>, order: seq<nat>, surplus: nat)
    requires Elements(order) == FinishedIds(installs) && forall i, j :: 0 <= i < j < |order| ==> order[i] < order[j]
    requires |order| == surplus + INSTALL_HISTORY_CAP && surplus > 0 && m == installs - Elements(order[..surplus])
    ensures IsPruned(installs, m)
  {
    SplitIncreasing(order, surplus);
    RemoveFinished(installs, Elements(order[..surplus]));
    ElementsCount(order[surplus..]);
    ElementsCount(order);
  }

  lemma RemoveFinished(m: map<nat, Status>, gone: set<nat>)
    requires gone <= FinishedIds(m)
    ensures FinishedIds(m - gone) == FinishedIds(m) - gone && UnfinishedIds(m - gone) == UnfinishedIds(m)
  {
  }

  /** Cutting an increasing sequence: each element is on one side, and the first side is below the second. */
  lemma SplitIncreasing(order: seq<nat>, n: nat)
    requires n <= |order| && forall i, j :: 0 <= i < j < |order| ==> order[i] < order[j]
    ensures Elements(order[n..]) == Elements(order) - Elements(order[..n])
    ensures forall a, b :: a in Elements(order[..n]) && b in Elements(order[n..]) ==> a < b
  {
    assert order == order[..n] + order[n..];
    forall a, b | a in order[..n] && b in order[n..]
      ensures a < b
    {
      var i :| 0 <= i < n && order[i] == a;
      var j :| n <= j < |order| && order[j] == b;
    }
    assert Elements(order) == Elements(order[..n]) + Elements(order[n..]);
  }

  // ----- The state machine

  /** What the pipeline of an install waits for. */
  datatype Stage = Spawned | Copying | Pushing | Committing | Cleaning(answer: Answer)

  /** What a wait comes back with: the outcome asked for, a failure, or nothing in time. */
  datatype Answer = Succeeded | Refused | NoAnswer

  /** A pipeline goes through at most this many more waits. */
  function Waits(stage: Stage): nat {
    match stage
    case Spawned => 4
    case Copying => 3
    case Pushing => 3
    case Committing => 2
    case Cleaning(_) => 1
  }

  /** How `perform_install` goes on: it waits again, or returns. */
  datatype Progress = Waiting(stage: Stage) | Returned

  ghost function Marked(m: map<nat, Status>, id: nat, success: bool): map<nat, Status> {
    if id !in m then m
    else
      m[id := m[id].(finished := true, phase := if success then DoneOk else DoneFailed,
                     percent := if success then 100 else m[id].percent)]
  }

  /** What an install shows while its pipeline waits at `stage`, having heard `heard`. */
  ghost predicate Shows(st: Status, stage: Stage, heard: seq<Answer>) {
    match stage
    case Spawned => st.phase == Pending && heard == []
    case Copying => st.phase == CopyingFile && st.fromDevice && |heard| == 1
    case Pushing => st.phase == CopyingFile && !st.fromDevice && |heard| == 1
    case Committing => st.phase == Installing && |heard| == 2 && heard[1] == Succeeded
    case Cleaning(verdict) => st.phase == Installing && |heard| == 3 && heard[1] == Succeeded && heard[2] == verdict
  }

  /**
    How an install ends. Of the answers its pipeline heard, the second is that of the copy or push and the third that of
    `pm install`: it succeeded if both did, and failed if one did not.
  */
  ghost predicate EndsAs(st: Status, heard: seq<Answer>) {
    && (st.phase == DoneOk <==> |heard| == 4 && heard[1] == Succeeded && heard[2] == Succeeded)
    && (st.phase == DoneFailed <==>
          (|heard| == 2 && heard[1] != Succeeded) || (|heard| == 4 && heard[1] == Succeeded && heard[2] != Succeeded))
    && (st.phase == DoneOk || st.phase == DoneFailed)
  }

  ghost predicate TellsTruth(installs: map<nat, Status>, next: nat, stages: map<nat, Stage>,
                             heard: map<nat, seq<Answer>>) {
    && (forall id: nat :: id in heard <==> id < next)
    && (forall id :: id in stages ==> id in installs && id in heard && Shows(installs[id], stages[id], heard[id]))
    && (forall id :: id in installs && installs[id].finished && id in heard ==> EndsAs(installs[id], heard[id]))
  }

  /** The other installs are as they were, or gone. */
  ghost predicate OthersKept(m: map<nat, Status>, m': map<nat, Status>, id: nat) {
    forall x :: x in m' && x != id ==> x in m && m'[x] == m[x]
  }

  lemma TruthAtStart(m: map<nat, Status>, m': map<nat, Status>, next: nat, stages: map<nat, Stage>,
                     heard: map<nat, seq<Answer>>, st: Status)
    requires TellsTruth(m, next, stages, heard) && IsPruned(m[next := st], m')
    requires st.phase == Pending && !st.finished && next in m'
    ensures TellsTruth(m', next + 1, map[next := Spawned], heard[next := []])
  {
  }

  lemma TruthAfterWait(m: map<nat, Status>, m': map<nat, Status>, next: nat, stages: map<nat, Stage>,
                       heard: map<nat, seq<Answer>>, id: nat, stage: Stage, answer: Answer)
    requires TellsTruth(m, next, stages, heard) && stages.Keys == {id} && OthersKept(m, m', id)
    requires id in m' && id in heard
    requires !m'[id].finished && Shows(m'[id], stage, heard[id] + [answer])
    ensures TellsTruth(m', next, stages[id := stage], heard[id := heard[id] + [answer]])
  {
  }

  lemma TruthAfterEnd(m: map<nat, Status>, m': map<nat, Status>, next: nat, stages: map<nat, Stage>,
                      heard: map<nat, seq<Answer>>, id: nat, answer: Answer)
    requires TellsTruth(m, next, stages, heard) && stages.Keys == {id} && OthersKept(m, m', id)
    requires id in m' && id in heard
    requires EndsAs(m'[id], heard[id] + [answer])
    ensures TellsTruth(m', next, stages - {id}, heard[id := heard[id] + [answer]])
  {
  }

  /** Progress numbers are no part of the truth told. */
  lemma TruthAfterPoll(m: map<nat, Status>, next: nat, stages: map<nat, Stage>, heard: map<nat, seq<Answer>>, id: nat,
                       st: Status)
    requires TellsTruth(m, next, stages, heard) && id in m
    requires st.phase == m[id].phase && st.fromDevice == m[id].fromDevice && st.finished == m[id].finished
    ensures TellsTruth(m[id := st], next, stages, heard)
  {
  }

  lemma TruthOfEnded(m: map<nat, Status>, next: nat, stages: map<nat, Stage>, heard: map<nat, seq<Answer>>)
    requires TellsTruth(m, next, stages, heard) && stages.Keys == UnfinishedIds(m) && forall id :: id in m ==> id < next
    ensures forall id :: id in m && id !in stages ==> id in heard && EndsAs(m[id], heard[id])
  {
    forall id | id in m && id !in stages
      ensures id in heard && EndsAs(m[id], heard[id])
    {
      assert id !in UnfinishedIds(m);
    }
  }

  /** Each install so far has released the slot once, but for the newest while it is under way. */
  ghost predicate Counted(releases: map<nat, nat>, next: nat, running: set<nat>) {
    && (forall id: nat :: id in releases <==> id < next)
    && (forall id :: id in releases ==> releases[id] == if id in running then 0 else 1)
    && (forall id :: id in running ==> id + 1 == next)
  }

  lemma CountedAtStart(releases: map<nat, nat>, next: nat)
    requires Counted(releases, next, {})
    ensures Counted(releases[next := 0], next + 1, {next})
  {
  }

  /**
    `stages` are the pipelines under way. `releases` and `heard` are history: how often each install has released the
    slot, and what the waits of its pipeline have come back with.
  */
  class Daemon {
    var installs: map<nat, Status>
    var installRunning: bool
    var nextInstallId: nat
    var stages: map<nat, Stage>
    ghost var releases: map<nat, nat>
    ghost var heard: map<nat, seq<Answer>>

    /** Exactly one unfinished install while the slot is taken, none otherwise; ids below `next` only. */
    ghost predicate Valid()
      reads this
    {
      && |UnfinishedIds(installs)| == (if installRunning then 1 else 0)
      && stages.Keys == UnfinishedIds(installs)
      && (forall id :: id in installs ==> id < nextInstallId)
      && |FinishedIds(installs)| <= INSTALL_HISTORY_CAP
      && Counted(releases, nextInstallId, stages.Keys)
    }

    /** Every install shows how far its pipeline is, or how it ended. */
    ghost predicate Honest()
      reads this
    {
      TellsTruth(installs, nextInstallId, stages, heard)
    }

    /** The slot is free and the history in order. */
    ghost predicate Released()
      reads this
    {
      && !installRunning && UnfinishedIds(installs) == {}
      && (forall x :: x in installs ==> x < nextInstallId) && |FinishedIds(installs)| <= INSTALL_HISTORY_CAP
    }

    constructor ()
      ensures Valid() && Honest() && installs == map[] && !installRunning && nextInstallId == 0 && stages == map[]
    {
      installs, installRunning, nextInstallId, stages := map[], false, 0, map[];
      releases, heard := map[], map[];
    }

    /** `start_install`, from taking the state lock to spawning the pipeline. Refused when an install is running. */
    method StartInstall(fromDevice: bool, bytesTotal: nat) returns (started: bool, id: nat)
      requires Valid()
      modifies this
      ensures Valid()
      ensures started == !old(installRunning) && id == old(nextInstallId)
      ensures !started ==> installs == old(installs) && installRunning && nextInstallId == id && stages == old(stages)
      ensures !started ==> releases == old(releases)
      ensures started ==> installRunning && id !in old(installs) && nextInstallId == id + 1
      ensures started ==> stages == map[id := Spawned]
      ensures started ==> releases == old(releases)[id := 0]
      ensures heard == if started then old(heard)[id := []] else old(heard)
      ensures started ==> IsPruned(old(installs)[id := Status(Pending, fromDevice, 0, 0, bytesTotal, false)], installs)
    {
      id := nextInstallId;
      if installRunning {
        return false, id;
      }
      nextInstallId := nextInstallId + 1;
      installRunning := true;
      assert UnfinishedIds(installs) == {} && stages == map[];
      var status := Status(Pending, fromDevice, 0, 0, bytesTotal, false);
      ghost var before := installs;
      installs := installs[id := status];
      installs := Prune(installs);
      Admitted(before, installs, id, status);
      CountedAtStart(releases, id);
      stages, releases, heard := map[id := Spawned], releases[id := 0], heard[id := []];
      started := true;
    }

    /** `update_install`: an id pruned away is ignored. No caller's `mutate` touches `finished`. */
    method UpdateInstall(id: nat, mutate: Status -> Status)
      requires Valid() && forall s :: mutate(s).finished == s.finished
      modifies this`installs
      ensures Valid()
      ensures installs == if id in old(installs) then old(installs)[id := mutate(old(installs)[id])] else old(installs)
    {
      if id in installs {
        ghost var before := installs;
        installs := installs[id := mutate(installs[id])];
        assert UnfinishedIds(installs) == UnfinishedIds(before) && FinishedIds(installs) == FinishedIds(before);
      }
    }

    /** `add_install_signed`: it frees the slot whoever calls it. */
    method Finish(id: nat, success: bool)
      requires id in releases
      modifies this`installs, this`installRunning, this`releases
      ensures !installRunning && releases == old(releases)[id := old(releases)[id] + 1]
      ensures IsPruned(Marked(old(installs), id, success), installs)
    {
      installRunning := false;
      releases := releases[id := releases[id] + 1];
      if id in installs {
        var s := installs[id];
        s := s.(finished := true, phase := if success then DoneOk else DoneFailed,
                percent := if success then 100 else s.percent);
        installs := installs[id := s];
      }
      installs := Prune(installs);
    }

    /** The pipeline's last act on the state: its install is marked, and the newest, so it stays. */
    method End(id: nat, success: bool)
      requires Valid() && id in stages
      modifies this`installs, this`installRunning, this`releases
      ensures Released() && releases == old(releases)[id := 1]
      ensures id in installs && OthersKept(old(installs), installs, id)
      ensures id in old(installs) && installs[id].finished
      ensures installs[id].phase == if success then DoneOk else DoneFailed
      ensures installs[id].percent == if success then 100 else old(installs)[id].percent
    {
      ghost var m := Marked(installs, id, success);
      OnlyMember(UnfinishedIds(installs), id);
      MarkFinished(installs, id, m[id]);
      Finish(id, success);
      NewestStays(m, installs, id);
    }

    /**
      `perform_install` from one wait to the next, which `answer` ends. No path of it returns an error, so what
      `run_install_pipeline` does after one never happens.
    */
    method Perform(id: nat, answer: Answer) returns (p: Progress)
      requires Valid() && id in stages && id in installs && id in heard && Shows(installs[id], stages[id], heard[id])
      modifies this`installs, this`installRunning, this`releases
      ensures p.Waiting? ==> Waits(p.stage) < Waits(stages[id])
      ensures p.Waiting? ==> Valid() && releases == old(releases)
      ensures p.Waiting? ==> id in installs && !installs[id].finished
      ensures p.Waiting? ==> Shows(installs[id], p.stage, heard[id] + [answer])
      ensures p.Returned? ==> Released() && releases == old(releases)[id := 1]
      ensures p.Returned? ==> id in installs && installs[id].finished && EndsAs(installs[id], heard[id] + [answer])
      ensures p.Returned? && installs[id].phase == DoneOk ==> installs[id].percent == 100
      ensures OthersKept(old(installs), installs, id)
    {
      assert id in UnfinishedIds(installs);
      match stages[id]
      case Spawned =>
        var fromDevice := id in installs && installs[id].fromDevice;
        UpdateInstall(id, (s: Status) => s.(phase := CopyingFile));
        return Waiting(if fromDevice then Copying else Pushing);
      case Copying =>
        if answer != Succeeded {
          End(id, false);
          return Returned;
        }
        UpdateInstall(id, (s: Status) => s.(phase := Installing));
        return Waiting(Committing);
      case Pushing =>
        if answer == NoAnswer {
          End(id, false);
          return Returned;
        }
        if answer == Refused {
          End(id, false);
          return Returned;
        }
        UpdateInstall(id, (s: Status) => s.(bytesDone := s.bytesTotal, percent := 100));
        UpdateInstall(id, (s: Status) => s.(phase := Installing));
        return Waiting(Committing);
      case Committing =>
        return Waiting(Cleaning(answer));
      case Cleaning(verdict) =>
        match verdict {
          case NoAnswer => End(id, false);
          case Refused => End(id, false);
          case Succeeded => End(id, true);
        }
        return Returned;
    }

    /**
      One wake-up of `run_install_pipeline`. When it ends, it has released the slot, and not before; and its install
      shows success exactly when the copy or push and `pm install` succeeded.
    */
    method Resume(id: nat, answer: Answer)
      requires Valid() && id in stages && id in installs && id in heard && Shows(installs[id], stages[id], heard[id])
      modifies this
      ensures Valid() && nextInstallId == old(nextInstallId)
      ensures OthersKept(old(installs), installs, id) && id in installs
      ensures heard == old(heard)[id := old(heard)[id] + [answer]]
      ensures id in stages ==> releases == old(releases) && Waits(stages[id]) < Waits(old(stages)[id])
      ensures id in stages ==> stages == old(stages)[id := stages[id]]
      ensures id in stages ==> !installs[id].finished && Shows(installs[id], stages[id], heard[id])
      ensures id !in stages ==> !installRunning && old(releases)[id] == 0 && releases == old(releases)[id := 1]
      ensures id !in stages ==> stages == old(stages) - {id} && EndsAs(installs[id], heard[id])
      ensures id !in stages && installs[id].phase == DoneOk ==> installs[id].percent == 100
    {
      OnlyMember(UnfinishedIds(installs), id);
      var p := Perform(id, answer);
      heard := heard[id := heard[id] + [answer]];
      if p.Waiting? {
        stages := stages[id := p.stage];
      } else {
        stages := stages - {id};
      }
    }
  }

  lemma NewUnfinished(m: map<nat, Status>, id: nat, s: Status)
    requires id !in m && UnfinishedIds(m) == {} && !s.finished
    ensures UnfinishedIds(m[id := s]) == {id} && FinishedIds(m[id := s]) == FinishedIds(m)
  {
  }

  lemma Admitted(m: map<nat, Status>, m': map<nat, Status>, id: nat, s: Status)
    requires UnfinishedIds(m) == {} && |FinishedIds(m)| <= INSTALL_HISTORY_CAP && !s.finished
    requires (forall x :: x in m ==> x < id) && IsPruned(m[id := s], m')
    ensures UnfinishedIds(m') == {id} && |UnfinishedIds(m')| == 1 && |FinishedIds(m')| <= INSTALL_HISTORY_CAP
    ensures forall x :: x in m' ==> x < id + 1
  {
    NewUnfinished(m, id, s);
  }

  lemma MarkFinished(m: map<nat, Status>, id: nat, s: Status)
    requires UnfinishedIds(m) == {id} && s.finished
    ensures UnfinishedIds(m[id := s]) == {} && FinishedIds(m[id := s]) == FinishedIds(m) + {id}
  {
    forall x | x in m && x != id
      ensures m[x].finished
    {
      assert x !in UnfinishedIds(m);
    }
  }

  /** The newest finished install is never pruned. */
  lemma NewestStays(m: map<nat, Status>, m': map<nat, Status>, id: nat)
    requires IsPruned(m, m') && id in m && m[id].finished && forall x :: x in m ==> x <= id
    ensures id in m'
  {
    assert id in FinishedIds(m) && FinishedIds(m') != {};
    var kept :| kept in FinishedIds(m');
    assert kept <= id;
  }

  lemma OnlyMember(s: set<nat>, x: nat)
    requires |s| == 1 && x in s
    ensures s == {x}
  {
    assert |s - {x}| == 0;
  }

  // ----- Whole runs

  /** `Poll`: the size of a staged file, read for any install, old ones included: a poll may outlive its pipeline. */
  datatype Event =
    | Start(fromDevice: bool, bytesTotal: nat)
    | Wake(id: nat, answer: Answer)
    | Poll(id: nat, bytesDone: nat)

  function Polled(s: Status, bytesDone: nat): Status {
    var percent := if s.bytesTotal == 0 then s.percent else bytesDone * 100 / s.bytesTotal;
    s.(bytesDone := bytesDone, percent := if s.bytesTotal > 0 && percent > 100 then 100 else percent)
  }

  /** A poll shows the bytes done and, of a known total, the whole percentage, at most 100. */
  lemma PolledShows(s: Status, bytesDone: nat)
    ensures var p := Polled(s, bytesDone);
      && p.bytesDone == bytesDone && p.phase == s.phase && p.finished == s.finished && p.bytesTotal == s.bytesTotal
      && (s.bytesTotal == 0 ==> p.percent == s.percent)
      && (s.bytesTotal > 0 && bytesDone >= s.bytesTotal ==> p.percent == 100)
      && (bytesDone < s.bytesTotal ==>
            p.percent * s.bytesTotal <= 100 * bytesDone < (p.percent + 1) * s.bytesTotal)
  {
    if s.bytesTotal > 0 {
      Percentage(bytesDone, s.bytesTotal, bytesDone * 100 / s.bytesTotal);
    }
  }

  lemma Percentage(done: nat, total: nat, q: nat)
    requires total > 0 && q == done * 100 / total
    ensures q * total <= 100 * done < (q + 1) * total
    ensures done >= total ==> q >= 100
    ensures done < total ==> q <= 100
  {
    Quotient(done * 100, total);
    if done >= total {
      AtLeast(100, q, total);
    } else {
      AtLeast(q, 100, total);
    }
  }

  lemma Quotient(a: nat, n: nat)
    requires n > 0
    ensures a / n * n <= a < (a / n + 1) * n
  {
  }

  lemma TimesGrows(x: nat, y: nat, n: nat)
    ensures x <= y ==> x * n <= y * n
  {
  }

  lemma AtLeast(x: nat, y: nat, n: nat)
    requires n > 0 && x * n < (y + 1) * n
    ensures x <= y
  {
    TimesGrows(y + 1, x, n);
  }

  method HandleStart(d: Daemon, fromDevice: bool, bytesTotal: nat) returns (started: bool)
    requires d.Valid() && d.Honest()
    modifies d
    ensures d.Valid() && d.Honest()
    ensures started ==> d.nextInstallId == old(d.nextInstallId) + 1 && d.stages.Keys == {old(d.nextInstallId)}
    ensures started ==> d.heard == old(d.heard)[old(d.nextInstallId) := []]
    ensures !started ==>
      d.nextInstallId == old(d.nextInstallId) && d.stages == old(d.stages) && d.heard == old(d.heard)
  {
    ghost var m, stages, heard := d.installs, d.stages, d.heard;
    var id: nat;
    started, id := d.StartInstall(fromDevice, bytesTotal);
    if started {
      assert id in UnfinishedIds(d.installs);
      TruthAtStart(m, d.installs, id, stages, heard, Status(Pending, fromDevice, 0, 0, bytesTotal, false));
    }
  }

  method HandleWake(d: Daemon, id: nat, answer: Answer)
    requires d.Valid() && d.Honest() && id in d.stages
    modifies d
    ensures d.Valid() && d.Honest()
    ensures d.nextInstallId == old(d.nextInstallId) && d.stages.Keys <= old(d.stages).Keys
    ensures id in old(d.heard) && d.heard == old(d.heard)[id := old(d.heard)[id] + [answer]]
  {
    ghost var m, stages, heard := d.installs, d.stages, d.heard;
    OnlyMember(UnfinishedIds(m), id);
    d.Resume(id, answer);
    if id in d.stages {
      TruthAfterWait(m, d.installs, d.nextInstallId, stages, heard, id, d.stages[id], answer);
    } else {
      TruthAfterEnd(m, d.installs, d.nextInstallId, stages, heard, id, answer);
    }
  }

  method HandlePoll(d: Daemon, id: nat, bytesDone: nat)
    requires d.Valid() && d.Honest()
    modifies d`installs
    ensures d.Valid() && d.Honest()
  {
    if id in d.installs {
      TruthAfterPoll(d.installs, d.nextInstallId, d.stages, d.heard, id, Polled(d.installs[id], bytesDone));
    }
    d.UpdateInstall(id, (s: Status) => Polled(s, bytesDone));
  }

  method Handle(d: Daemon, e: Event) returns (issued: set<nat>)
    requires d.Valid() && d.Honest()
    modifies d
    ensures d.Valid() && d.Honest()
    ensures issued == {} ==>
      && d.nextInstallId == old(d.nextInstallId) && d.stages.Keys <= old(d.stages).Keys
      && d.heard == HeardAfter(old(d.heard), old(d.stages), e)
    ensures issued != {} ==>
      && e.Start? && issued == {old(d.nextInstallId)} && d.nextInstallId == old(d.nextInstallId) + 1
      && d.stages.Keys == issued && d.heard == old(d.heard)[old(d.nextInstallId) := []]
  {
    issued := {};
    match e
    case Start(fromDevice, bytesTotal) =>
      var id := d.nextInstallId;
      var started := HandleStart(d, fromDevice, bytesTotal);
      if started {
        issued := {id};
      }
    case Wake(id, answer) =>
      if id in d.stages {
        HandleWake(d, id, answer);
      }
    case Poll(id, bytesDone) =>
      HandlePoll(d, id, bytesDone);
  }

  ghost function HeardAfter(heard: map<nat, seq<Answer>>, stages: map<nat, Stage>, e: Event): map<nat, seq<Answer>> {
    if e.Wake? && e.id in stages && e.id in heard then heard[e.id := heard[e.id] + [e.answer]] else heard
  }

  /** The answers among `events` for install `id`. */
  ghost function AnswersTo(events: seq<Event>, id: nat): seq<Answer> {
    if events == [] then []
    else
      var e := events[|events| - 1];
      AnswersTo(events[..|events| - 1], id) + if e.Wake? && e.id == id then [e.answer] else []
  }

  /** A pipeline has heard the first of `answers`, and all of them while it is under way. */
  ghost predicate Hears(heard: seq<Answer>, running: bool, answers: seq<Answer>) {
    heard <= answers && (running ==> heard == answers)
  }

  /** Each install has heard the answers that came for it after its start, the event before `born[id]`. */
  ghost predicate Listens(heard: map<nat, seq<Answer>>, running: set<nat>, events: seq<Event>, born: seq<nat>) {
    forall id :: 0 <= id < |born| ==> ListensFrom(heard, running, events, born[id], id)
  }

  ghost predicate ListensFrom(heard: map<nat, seq<Answer>>, running: set<nat>, events: seq<Event>, from: nat, id: nat) {
    from <= |events| && id in heard && Hears(heard[id], id in running, AnswersTo(events[from..], id))
  }

  lemma OneMoreEvent(events: seq<Event>, k: nat, from: nat, id: nat)
    requires from <= k < |events|
    ensures AnswersTo(events[..k + 1][from..], id) ==
            AnswersTo(events[..k][from..], id) +
            if events[k].Wake? && events[k].id == id then [events[k].answer] else []
  {
    assert events[..k + 1][from..] == events[..k][from..] + [events[k]];
    AnswersSnoc(events[..k][from..], events[k], id);
  }

  lemma AnswersSnoc(events: seq<Event>, e: Event, id: nat)
    ensures AnswersTo(events + [e], id) == AnswersTo(events, id) + if e.Wake? && e.id == id then [e.answer] else []
  {
    assert (events + [e])[..|events|] == events;
  }

  /** One more event is heard by the pipeline it is for. */
  lemma ListensOn(heard: map<nat, seq<Answer>>, stages: map<nat, Stage>, running': set<nat>, events: seq<Event>, k: nat,
                  born: seq<nat>)
    requires k < |events| && running' <= stages.Keys && Listens(heard, stages.Keys, events[..k], born)
    ensures Listens(HeardAfter(heard, stages, events[k]), running', events[..k + 1], born)
  {
    var heard' := HeardAfter(heard, stages, events[k]);
    forall id | 0 <= id < |born|
      ensures ListensFrom(heard', running', events[..k + 1], born[id], id)
    {
      assert ListensFrom(heard, stages.Keys, events[..k], born[id], id);
      OneMoreEvent(events, k, born[id], id);
    }
  }

  /** A start is heard by nobody, and the install it starts has heard nothing. */
  lemma ListensFirst(heard: map<nat, seq<Answer>>, running: set<nat>, events: seq<Event>, k: nat, born: seq<nat>)
    requires k < |events| && events[k].Start? && Listens(heard, running, events[..k], born)
    ensures Listens(heard[|born| := []], {|born|}, events[..k + 1], born + [k + 1])
  {
    var born', heard' := born + [k + 1], heard[|born| := []];
    forall id | 0 <= id < |born'|
      ensures ListensFrom(heard', {|born|}, events[..k + 1], born'[id], id)
    {
      if id < |born| {
        assert ListensFrom(heard, running, events[..k], born[id], id);
        OneMoreEvent(events, k, born[id], id);
      } else {
        assert events[..k + 1][k + 1..] == [];
      }
    }
  }

  ghost predicate Rising(ids: seq<nat>, next: nat) {
    && (forall i, j :: 0 <= i < j < |ids| ==> ids[i] < ids[j])
    && (forall i :: 0 <= i < |ids| ==> ids[i] < next)
  }

  lemma RisingSnoc(ids: seq<nat>, next: nat)
    requires next > 0 && Rising(ids, next - 1)
    ensures Rising(ids + [next - 1], next)
  {
  }

  /** One event, and what the pipelines have heard after it. */
  method Turn(d: Daemon, events: seq<Event>, k: nat, ids0: seq<nat>, ghost born0: seq<nat>)
    returns (ids: seq<nat>, ghost born: seq<nat>)
    requires d.Valid() && d.Honest() && k < |events| && Rising(ids0, d.nextInstallId)
    requires |born0| == d.nextInstallId && Listens(d.heard, d.stages.Keys, events[..k], born0)
    modifies d
    ensures d.Valid() && d.Honest() && Rising(ids, d.nextInstallId)
    ensures |born| == d.nextInstallId && Listens(d.heard, d.stages.Keys, events[..k + 1], born)
  {
    ghost var heard, stages := d.heard, d.stages;
    ids, born := ids0, born0;
    var issued := Handle(d, events[k]);
    if issued != {} {
      ListensFirst(heard, stages.Keys, events, k, born);
      RisingSnoc(ids, d.nextInstallId);
      ids, born := ids + [d.nextInstallId - 1], born + [k + 1];
    } else {
      ListensOn(heard, stages, d.stages.Keys, events, k, born);
    }
  }

  /**
    Any interleaving of starts, pipeline steps and progress updates: `Valid` holds throughout, the ids handed out
    strictly increase, and an install has released the slot once if its pipeline has ended and never before. Each
    install still on record shows success exactly when its copy or push and its `pm install` succeeded, by the answers
    that came for it after its start, which is the event before `born[id]`.
  */
  method Run(events: seq<Event>) returns (d: Daemon, ids: seq<nat>, ghost born: seq<nat>)
    ensures d.Valid() && d.Honest()
    ensures forall i, j :: 0 <= i < j < |ids| ==> ids[i] < ids[j]
    ensures forall i :: 0 <= i < |ids| ==>
      ids[i] in d.releases && d.releases[ids[i]] == if ids[i] in d.stages then 0 else 1
    ensures |born| == d.nextInstallId && Listens(d.heard, d.stages.Keys, events, born)
    ensures forall id :: id in d.installs && id !in d.stages ==> id in d.heard && EndsAs(d.installs[id], d.heard[id])
  {
    d := new Daemon();
    ids, born := [], [];
    for k := 0 to |events|
      invariant d.Valid() && d.Honest() && fresh(d)
      invariant Rising(ids, d.nextInstallId)
      invariant |born| == d.nextInstallId && Listens(d.heard, d.stages.Keys, events[..k], born)
    {
      ids, born := Turn(d, events, k, ids, born);
    }
    assert events[..|events|] == events;
    TruthOfEnded(d.installs, d.nextInstallId, d.stages, d.heard);
  }
}
