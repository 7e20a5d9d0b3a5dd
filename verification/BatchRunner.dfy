/** `apply_all`: a batch of package actions, at most eight at a time, whatever order they finish in. */
module BatchRunner {
  import opened Bytes

  const PM_CONCURRENCY: nat := 8

  /** What happens to request `i`: its task answers, or dies without an answer. */
  datatype Fate<+R> = Answers(r: R) | Dies

  /** Slots of finished requests are filled with their answers, all others are empty. */
  ghost predicate SlotsOk<R>(slots: seq<Option<R>>, fates: seq<Fate<R>>, running: set<nat>, next: nat) {
    && |slots| == |fates| && next <= |fates|
    && (forall i :: i in running ==> i < next)
    && (forall i :: 0 <= i < |slots| ==>
          slots[i] == if i < next && i !in running && fates[i].Answers? then Some(fates[i].r) else None)
  }

  /** `spawn` of the next request: it joins the running tasks. */
  lemma Spawned<R>(slots: seq<Option<R>>, fates: seq<Fate<R>>, running: set<nat>, next: nat)
    requires SlotsOk(slots, fates, running, next) && next < |fates|
    ensures SlotsOk(slots, fates, running + {next}, next + 1) && |running + {next}| == |running| + 1
  {
  }

  /** The runner's bookkeeping: slots, who is running, how far the requests have been handed out, in which order. */
  ghost predicate Running<R>(slots: seq<Option<R>>, fates: seq<Fate<R>>, running: set<nat>, next: nat,
                             started: seq<nat>, peak: nat) {
    && SlotsOk(slots, fates, running, next)
    && |running| <= PM_CONCURRENCY && peak <= PM_CONCURRENCY
    && |started| == next && (forall i :: 0 <= i < next ==> started[i] == i)
  }

  /** `running.spawn` for the next request, if there is one. */
  method Spawn<R>(ghost slots: seq<Option<R>>, fates: seq<Fate<R>>, running: set<nat>, next: nat,
                  ghost started: seq<nat>, ghost peak: nat)
    returns (running': set<nat>, next': nat, ghost started': seq<nat>, ghost peak': nat)
    requires Running(slots, fates, running, next, started, peak) && |running| < PM_CONCURRENCY
    ensures Running(slots, fates, running', next', started', peak')
    ensures if next < |fates| then next' == next + 1 && running' == running + {next} && |running'| == |running| + 1
            else next' == next && running' == running
  {
    running', next', started', peak' := running, next, started, peak;
    if next < |fates| {
      Spawned(slots, fates, running, next);
      running', next', started' := running + {next}, next + 1, started + [next];
      peak' := if |running'| > peak then |running'| else peak;
    }
  }

  /** Task `index` ends: its answer, if any, goes into its slot. */
  method Join<R>(slots: seq<Option<R>>, fates: seq<Fate<R>>, running: set<nat>, ghost next: nat, index: nat,
                 ghost started: seq<nat>, ghost peak: nat)
    returns (slots': seq<Option<R>>, running': set<nat>)
    requires Running(slots, fates, running, next, started, peak) && index in running
    ensures Running(slots', fates, running', next, started, peak)
    ensures running' == running - {index} && |running'| == |running| - 1
  {
    slots', running' := slots, running - {index};
    if fates[index].Answers? {
      slots' := slots[index := Some(fates[index].r)];
    }
  }

  /**
    Which request ends next is picked arbitrarily among the running ones: the runner is right for every completion
    order. `started` is the order in which requests were started, `peak` the most that were ever running.
  */
  method ApplyAll<R>(fates: seq<Fate<R>>, placeholder: R)
    returns (results: seq<R>, ghost started: seq<nat>, ghost peak: nat)
    ensures |results| == |fates|
    ensures forall i :: 0 <= i < |fates| ==> results[i] == if fates[i].Answers? then fates[i].r else placeholder
    ensures |started| == |fates| && forall i :: 0 <= i < |fates| ==> started[i] == i
    ensures peak <= 8
  {
    var slots: seq<Option<R>> := seq(|fates|, _ => None);
    var running: set<nat>, next := {}, 0;
    started, peak := [], 0;
    for n := 0 to PM_CONCURRENCY
      invariant Running(slots, fates, running, next, started, peak)
      invariant |running| == next && next == (if n <= |fates| then n else |fates|)
    {
      running, next, started, peak := Spawn(slots, fates, running, next, started, peak);
    }
    while running != {}
      invariant Running(slots, fates, running, next, started, peak)
      invariant running == {} ==> next == |fates|
      decreases |fates| - next, |running|
    {
      var index :| index in running;
      slots, running := Join(slots, fates, running, next, index, started, peak);
      running, next, started, peak := Spawn(slots, fates, running, next, started, peak);
    }
    results := seq(|slots|, i requires 0 <= i < |slots| => if slots[i].Some? then slots[i].value else placeholder);
  }
}
