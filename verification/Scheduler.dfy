/** Starting and stopping a compose stack against a daemon that may answer anything. */
module Scheduler {
  import opened Prelude
  import opened Topo
  import opened TopoGraph
  import opened TopoReplicas

  /** One exchange with the Docker daemon, or a pause of the start loop. */
  datatype Event =
    | Probe(id: string, running: bool)
    | Await(id: string, condition: DepCondition)
    | Start(id: string, ok: bool)
    | Stop(id: string, ok: bool)
    | Backoff

  /** The daemon as an oracle: every answer is arbitrary, and every exchange is recorded. */
  class Daemon {
    var log: seq<Event>

    constructor ()
      ensures log == []
    {
      log := [];
    }

    method IsRunning(id: string) returns (running: bool)
      modifies this
      ensures log == old(log) + [Probe(id, running)]
    {
      running := *;
      log := log + [Probe(id, running)];
    }

    /** Polling until the condition holds, or until the wait is given up; either way it returns. */
    method WaitFor(id: string, condition: DepCondition)
      modifies this
      ensures log == old(log) + [Await(id, condition)]
    {
      log := log + [Await(id, condition)];
    }

    method StartContainer(id: string) returns (ok: bool)
      modifies this
      ensures log == old(log) + [Start(id, ok)]
    {
      ok := *;
      log := log + [Start(id, ok)];
    }

    method StopContainer(id: string) returns (ok: bool)
      modifies this
      ensures log == old(log) + [Stop(id, ok)]
    {
      ok := *;
      log := log + [Stop(id, ok)];
    }

    method Sleep()
      modifies this
      ensures log == old(log) + [Backoff]
    {
      log := log + [Backoff];
    }
  }

  // ----- What a pass writes to the log -----

  /** How a pass leaves one member. */
  datatype Answer = Running | Started | Refused

  /** The container a service name stands for: of several replicas, the one listed last. */
  function IdByService(members: seq<Member>): map<string, string> {
    if members == [] then map[]
    else
      var last := members[|members| - 1];
      IdByService(members[..|members| - 1])[last.service := last.id]
  }

  function Waits(deps: seq<Dep>, ids: map<string, string>): seq<Event> {
    if deps == [] then []
    else
      var d := deps[|deps| - 1];
      Waits(deps[..|deps| - 1], ids)
      + if d.service in ids && d.condition != DepCondition.Started then [Await(ids[d.service], d.condition)] else []
  }

  function MemberLog(m: Member, answer: Answer, ids: map<string, string>): seq<Event> {
    if answer == Running then [Probe(m.id, true)]
    else [Probe(m.id, false)] + Waits(m.deps, ids) + [Start(m.id, answer == Answer.Started)]
  }

  function PassLog(ordered: seq<Member>, answers: seq<Answer>, ids: map<string, string>): seq<Event>
    requires |answers| == |ordered|
  {
    if ordered == [] then []
    else
      var n := |ordered| - 1;
      PassLog(ordered[..n], answers[..n], ids) + MemberLog(ordered[n], answers[n], ids)
  }

  function Count(answers: seq<Answer>, what: Answer): nat {
    if answers == [] then 0
    else Count(answers[..|answers| - 1], what) + if answers[|answers| - 1] == what then 1 else 0
  }

  datatype StackOutcome = StackOutcome(total: nat, failed: nat)

  /** One turn of a pass: a running member needs nothing; others are started once their conditions were awaited. */
  method StartMember(daemon: Daemon, m: Member, ids: map<string, string>) returns (answer: Answer)
    modifies daemon
    ensures daemon.log == old(daemon.log) + MemberLog(m, answer, ids)
  {
    var running := daemon.IsRunning(m.id);
    if running {
      return Running;
    }
    ghost var probed := daemon.log;
    for k := 0 to |m.deps|
      invariant daemon.log == probed + Waits(m.deps[..k], ids)
    {
      assert m.deps[..k + 1][..k] == m.deps[..k];
      var dep := m.deps[k];
      if dep.service in ids && dep.condition != DepCondition.Started {
        daemon.WaitFor(ids[dep.service], dep.condition);
      }
    }
    assert m.deps[..|m.deps|] == m.deps;
    var ok := daemon.StartContainer(m.id);
    answer := if ok then Answer.Started else Refused;
  }

  lemma {:induction false} PassLogSnoc(
      ordered: seq<Member>, answers: seq<Answer>, ids: map<string, string>, m: Member, answer: Answer)
    requires |answers| == |ordered|
    ensures PassLog(ordered + [m], answers + [answer], ids)
         == PassLog(ordered, answers, ids) + MemberLog(m, answer, ids)
    ensures forall what :: Count(answers + [answer], what) == Count(answers, what) + if answer == what then 1 else 0
  {
    assert (ordered + [m])[..|ordered|] == ordered && (answers + [answer])[..|answers|] == answers;
  }

  method StartPass(daemon: Daemon, ordered: seq<Member>, ids: map<string, string>)
      returns (failed: nat, progressed: bool, ghost answers: seq<Answer>)
    modifies daemon
    ensures |answers| == |ordered|
    ensures daemon.log == old(daemon.log) + PassLog(ordered, answers, ids)
    ensures failed == Count(answers, Refused) && progressed == (Count(answers, Answer.Started) > 0)
  {
    failed, progressed, answers := 0, false, [];
    for i := 0 to |ordered|
      invariant |answers| == i
      invariant daemon.log == old(daemon.log) + PassLog(ordered[..i], answers, ids)
      invariant failed == Count(answers, Refused) && progressed == (Count(answers, Answer.Started) > 0)
    {
      var answer := StartMember(daemon, ordered[i], ids);
      PassLogSnoc(ordered[..i], answers, ids, ordered[i], answer);
      ConcatAssociates(
        old(daemon.log), PassLog(ordered[..i], answers, ids), MemberLog(ordered[i], answer, ids));
      assert ordered[..i + 1] == ordered[..i] + [ordered[i]];
      answers := answers + [answer];
      if answer == Answer.Started {
        progressed := true;
      }
      if answer == Refused {
        failed := failed + 1;
      }
    }
    assert ordered[..|ordered|] == ordered;
  }

  /** The pause the loop takes before another pass. */
  function PauseAfter(answers: seq<Answer>): seq<Event> {
    if Count(answers, Answer.Started) == 0 then [Backoff] else []
  }

  /** The start loop's log: failed passes, each with its pause, and a last pass. */
  function RunLog(ordered: seq<Member>, retried: seq<seq<Answer>>, last: seq<Answer>, ids: map<string, string>)
      : seq<Event>
    requires |last| == |ordered| && forall p | p in retried :: |p| == |ordered|
  {
    RetryLog(ordered, retried, ids) + PassLog(ordered, last, ids)
  }

  function RetryLog(ordered: seq<Member>, retried: seq<seq<Answer>>, ids: map<string, string>): seq<Event>
    requires forall p | p in retried :: |p| == |ordered|
  {
    if retried == [] then []
    else
      var n := |retried| - 1;
      assert retried[n] in retried && forall p | p in retried[..n] :: p in retried;
      RetryLog(ordered, retried[..n], ids) + PassLog(ordered, retried[n], ids) + PauseAfter(retried[n])
  }

  lemma {:induction false} RetryLogSnoc(
      ordered: seq<Member>, retried: seq<seq<Answer>>, answers: seq<Answer>, ids: map<string, string>)
    requires |answers| == |ordered| && forall p | p in retried :: |p| == |ordered|
    ensures RetryLog(ordered, retried + [answers], ids)
         == RetryLog(ordered, retried, ids) + PassLog(ordered, answers, ids) + PauseAfter(answers)
  {
    assert (retried + [answers])[..|retried|] == retried;
  }

  lemma Associate<T>(a: seq<T>, b: seq<T>, c: seq<T>, d: seq<T>)
    ensures (a + b) + c == a + (b + c)
    ensures ((a + b) + c) + d == a + ((b + c) + d)
  {
  }

  /** Passes over `n` members that each failed to start some of them. */
  ghost predicate AllFailed(passes: seq<seq<Answer>>, n: nat) {
    forall p | p in passes :: |p| == n && Count(p, Refused) > 0
  }

  /** `retries` bounds the failed passes that end before the deadline; the loop runs at least one pass. */
  method StartInOrder(daemon: Daemon, members: seq<Member>, retries: nat)
      returns (outcome: StackOutcome, ghost retried: seq<seq<Answer>>, ghost last: seq<Answer>)
    modifies daemon
    ensures |last| == |Order(members)| && AllFailed(retried, |last|)
    ensures daemon.log == old(daemon.log) + RunLog(Order(members), retried, last, IdByService(members))
    ensures outcome == StackOutcome(|members|, Count(last, Refused))
    ensures |retried| <= retries && (outcome.failed > 0 ==> |retried| == retries)
    ensures outcome.failed == |NotRunning(Order(members), last, IdByService(members))|
    ensures outcome.failed == 0
       <==> forall i | 0 <= i < |last| :: EndsRunning(Order(members), last, IdByService(members), i)
  {
    var ordered := TopoOrder(members);
    var ids := IdByService(members);
    var left := retries;
    retried := [];
    ghost var start := daemon.log;
    while true
      invariant 0 <= left == retries - |retried| && AllFailed(retried, |ordered|)
      invariant daemon.log == start + RetryLog(ordered, retried, ids)
      decreases left
    {
      var failed, progressed, answers := StartPass(daemon, ordered, ids);
      Associate(start, RetryLog(ordered, retried, ids), PassLog(ordered, answers, ids), PauseAfter(answers));
      if failed == 0 || left == 0 {
        outcome := StackOutcome(|members|, failed);
        last := answers;
        NoFailureIffAllRunning(ordered, last, ids);
        RefusedAreNotRunning(ordered, last, ids);
        return;
      }
      left := left - 1;
      if !progressed {
        daemon.Sleep();
      } else {
        assert daemon.log == daemon.log + PauseAfter(answers);
      }
      RetryLogSnoc(ordered, retried, answers, ids);
      retried := retried + [answers];
    }
  }

  function StopLog(ordered: seq<Member>, oks: seq<bool>): seq<Event>
    requires |oks| == |ordered|
  {
    seq(|ordered|, i requires 0 <= i < |ordered| => Stop(ordered[i].id, oks[i]))
  }

  function Reversed<T>(s: seq<T>): seq<T> {
    seq(|s|, i requires 0 <= i < |s| => s[|s| - 1 - i])
  }

  function Errors(oks: seq<bool>): nat {
    if oks == [] then 0 else Errors(oks[..|oks| - 1]) + if oks[|oks| - 1] then 0 else 1
  }

  /** The positions of a stop log at which the daemon refused. */
  ghost function StopFailures(log: seq<Event>, ordered: seq<Member>): set<nat> {
    set k: nat | k < |ordered| && k < |log| && log[k] == Stop(ordered[k].id, false)
  }

  lemma {:induction false} CountsUp(n: nat, small: set<nat>, big: set<nat>, last: bool)
    requires (forall k | k in small :: k < n) && big == if last then small + {n} else small
    ensures |big| == |small| + if last then 1 else 0
  {
  }

  ghost function FalseAt(oks: seq<bool>): set<nat> {
    set k: nat | k < |oks| && !oks[k]
  }

  lemma {:induction false} ErrorsCount(oks: seq<bool>)
    ensures Errors(oks) == |FalseAt(oks)|
  {
    if oks != [] {
      var n := |oks| - 1;
      ErrorsCount(oks[..n]);
      assert FalseAt(oks) == if !oks[n] then FalseAt(oks[..n]) + {n} else FalseAt(oks[..n]);
      CountsUp(n, FalseAt(oks[..n]), FalseAt(oks), !oks[n]);
    }
  }

  /** What the counter holds: the number of refusals in the log. */
  lemma {:induction false} ErrorsAreFailures(ordered: seq<Member>, oks: seq<bool>)
    requires |oks| == |ordered|
    ensures Errors(oks) == |StopFailures(StopLog(ordered, oks), ordered)|
  {
    ErrorsCount(oks);
    assert FalseAt(oks) == StopFailures(StopLog(ordered, oks), ordered);
  }

  /** There are none exactly when every entry is a success. */
  lemma {:induction false} NoErrorsIff(ordered: seq<Member>, oks: seq<bool>)
    requires |oks| == |ordered|
    ensures Errors(oks) == 0
       <==> forall k | 0 <= k < |oks| :: StopLog(ordered, oks)[k] == Stop(ordered[k].id, true)
  {
    ErrorsAreFailures(ordered, oks);
    var failures := StopFailures(StopLog(ordered, oks), ordered);
    if forall k | 0 <= k < |oks| :: StopLog(ordered, oks)[k] == Stop(ordered[k].id, true) {
      assert failures == {};
    }
    if Errors(oks) == 0 {
      forall k | 0 <= k < |oks| ensures oks[k] {
        assert k !in failures;
      }
    }
  }

  method StopInOrder(daemon: Daemon, members: seq<Member>) returns (outcome: StackOutcome, ghost oks: seq<bool>)
    modifies daemon
    ensures |oks| == |Order(members)|
    ensures daemon.log == old(daemon.log) + StopLog(Reversed(Order(members)), oks)
    ensures outcome == StackOutcome(|members|, Errors(oks))
    ensures outcome.failed == |StopFailures(daemon.log[|old(daemon.log)|..], Reversed(Order(members)))|
    ensures outcome.failed == 0
       <==> forall k | 0 <= k < |oks| :: daemon.log[|old(daemon.log)| + k] == Stop(Reversed(Order(members))[k].id, true)
  {
    var order := TopoOrder(members);
    var ordered := Reversed(order);
    var failed := 0;
    oks := [];
    for i := 0 to |ordered|
      invariant |oks| == i && failed == Errors(oks)
      invariant daemon.log == old(daemon.log) + StopLog(ordered[..i], oks)
    {
      ghost var before := oks;
      var ok := daemon.StopContainer(ordered[i].id);
      if !ok {
        failed := failed + 1;
      }
      oks := oks + [ok];
      assert oks[..i] == before;
      assert StopLog(ordered[..i + 1], oks) == StopLog(ordered[..i], before) + [Stop(ordered[i].id, ok)];
    }
    assert ordered[..|ordered|] == ordered;
    outcome := StackOutcome(|members|, failed);
    ErrorsAreFailures(ordered, oks);
    NoErrorsIff(ordered, oks);
    assert daemon.log[|old(daemon.log)|..] == StopLog(ordered, oks);
  }

  datatype Action = StartStack | StopStack | Restart

  /** A restart stops everything, then starts everything; it reports what the start could not start. */
  method StackAction(daemon: Daemon, members: seq<Member>, action: Action, retries: nat)
      returns (outcome: StackOutcome, ghost oks: seq<bool>, ghost retried: seq<seq<Answer>>, ghost last: seq<Answer>)
    modifies daemon
    ensures |oks| == |last| == |Order(members)| && AllFailed(retried, |last|)
    ensures action.StartStack? ==>
              daemon.log == old(daemon.log) + RunLog(Order(members), retried, last, IdByService(members))
    ensures action.StopStack? ==> daemon.log == old(daemon.log) + StopLog(Reversed(Order(members)), oks)
    ensures action.Restart? ==>
              daemon.log == old(daemon.log) + StopLog(Reversed(Order(members)), oks)
                            + RunLog(Order(members), retried, last, IdByService(members))
    ensures outcome == StackOutcome(|members|, if action.StopStack? then Errors(oks) else Count(last, Refused))
    ensures action.StopStack? ==>
              outcome.failed == |StopFailures(daemon.log[|old(daemon.log)|..], Reversed(Order(members)))|
    ensures !action.StopStack? ==>
              outcome.failed == |NotRunning(Order(members), last, IdByService(members))|
  {
    oks, retried, last := seq(|Order(members)|, i => true), [], seq(|Order(members)|, i => Running);
    match action {
      case StartStack =>
        outcome, retried, last := StartInOrder(daemon, members, retries);
      case StopStack =>
        outcome, oks := StopInOrder(daemon, members);
      case Restart =>
        var stop, start;
        stop, oks := StopInOrder(daemon, members);
        start, retried, last := StartInOrder(daemon, members, retries);
        outcome := stop.(failed := start.failed);
    }
  }

  // ----- What the logs mean -----

  /** Container `id` was found running, or its start was attempted. */
  predicate Settles(e: Event, id: string) {
    e == Probe(id, true) || (e.Start? && e.id == id)
  }

  function Offset(ordered: seq<Member>, answers: seq<Answer>, ids: map<string, string>, i: nat): nat
    requires |answers| == |ordered| && i <= |ordered|
  {
    |PassLog(ordered[..i], answers[..i], ids)|
  }

  lemma {:induction false} OffsetStep(ordered: seq<Member>, answers: seq<Answer>, ids: map<string, string>, i: nat)
    requires |answers| == |ordered| && i < |ordered|
    ensures PassLog(ordered[..i + 1], answers[..i + 1], ids)
         == PassLog(ordered[..i], answers[..i], ids) + MemberLog(ordered[i], answers[i], ids)
  {
    assert ordered[..i + 1] == ordered[..i] + [ordered[i]] && answers[..i + 1] == answers[..i] + [answers[i]];
    PassLogSnoc(ordered[..i], answers[..i], ids, ordered[i], answers[i]);
  }

  lemma {:induction false} PassLogExtends(ordered: seq<Member>, answers: seq<Answer>, ids: map<string, string>, i: nat)
    requires |answers| == |ordered| && i <= |ordered|
    ensures PassLog(ordered[..i], answers[..i], ids) <= PassLog(ordered, answers, ids)
    decreases |ordered| - i
  {
    if i < |ordered| {
      OffsetStep(ordered, answers, ids, i);
      PassLogExtends(ordered, answers, ids, i + 1);
    } else {
      assert ordered[..i] == ordered && answers[..i] == answers;
    }
  }

  /** A pass log is its members' blocks laid end to end. */
  lemma {:induction false} BlockAt(ordered: seq<Member>, answers: seq<Answer>, ids: map<string, string>, i: nat)
    requires |answers| == |ordered| && i < |ordered|
    ensures var lo, hi := Offset(ordered, answers, ids, i), Offset(ordered, answers, ids, i + 1);
            && lo < hi <= |PassLog(ordered, answers, ids)|
            && PassLog(ordered, answers, ids)[lo..hi] == MemberLog(ordered[i], answers[i], ids)
  {
    var all, upTo := PassLog(ordered, answers, ids), PassLog(ordered[..i + 1], answers[..i + 1], ids);
    var before, block := PassLog(ordered[..i], answers[..i], ids), MemberLog(ordered[i], answers[i], ids);
    OffsetStep(ordered, answers, ids, i);
    PassLogExtends(ordered, answers, ids, i + 1);
    SliceOfPrefix(all, upTo, before, block);
  }

  lemma SliceOfPrefix<T>(all: seq<T>, upTo: seq<T>, before: seq<T>, block: seq<T>)
    requires upTo == before + block && upTo <= all
    ensures all[|before|..|upTo|] == block
  {
    assert all[..|upTo|] == upTo;
    assert all[|before|..|upTo|] == upTo[|before|..];
  }

  lemma {:induction false} WholeOffset(ordered: seq<Member>, answers: seq<Answer>, ids: map<string, string>)
    requires |answers| == |ordered|
    ensures Offset(ordered, answers, ids, |ordered|) == |PassLog(ordered, answers, ids)|
  {
    assert ordered[..|ordered|] == ordered && answers[..|ordered|] == answers;
  }

  lemma {:induction false} BlockBelow(
      ordered: seq<Member>, answers: seq<Answer>, ids: map<string, string>, n: nat, k: nat) returns (i: nat)
    requires |answers| == |ordered| && n <= |ordered| && k < Offset(ordered, answers, ids, n)
    ensures i < n && Offset(ordered, answers, ids, i) <= k < Offset(ordered, answers, ids, i + 1)
    decreases n
  {
    if k < Offset(ordered, answers, ids, n - 1) {
      i := BlockBelow(ordered, answers, ids, n - 1, k);
    } else {
      i := n - 1;
    }
  }

  /** Every position of a pass log lies in one member's block. */
  lemma BlockOf(ordered: seq<Member>, answers: seq<Answer>, ids: map<string, string>, k: nat) returns (i: nat)
    requires |answers| == |ordered| && k < |PassLog(ordered, answers, ids)|
    ensures i < |ordered|
    ensures Offset(ordered, answers, ids, i) <= k < Offset(ordered, answers, ids, i + 1)
  {
    WholeOffset(ordered, answers, ids);
    i := BlockBelow(ordered, answers, ids, |ordered|, k);
  }

  lemma {:induction false} OffsetsAscend(
      ordered: seq<Member>, answers: seq<Answer>, ids: map<string, string>, i: nat, j: nat)
    requires |answers| == |ordered| && i <= j <= |ordered|
    ensures Offset(ordered, answers, ids, i) <= Offset(ordered, answers, ids, j)
    decreases j - i
  {
    if i < j {
      BlockAt(ordered, answers, ids, i);
      OffsetsAscend(ordered, answers, ids, i + 1, j);
    }
  }

  lemma BlockSettles(log: seq<Event>, lo: nat, hi: nat, m: Member, answer: Answer, ids: map<string, string>)
    requires lo < hi <= |log| && log[lo..hi] == MemberLog(m, answer, ids)
    ensures Settles(log[hi - 1], m.id)
  {
    assert log[hi - 1] == log[lo..hi][hi - lo - 1];
  }

  /** The daemon said that container `id` runs: it was found running, or its start succeeded. */
  predicate Runs(e: Event, id: string) {
    e == Probe(id, true) || e == Start(id, true)
  }

  /** The last exchange of the pass about its `i`-th member says that it runs. */
  predicate EndsRunning(ordered: seq<Member>, answers: seq<Answer>, ids: map<string, string>, i: nat)
    requires |answers| == |ordered| && i < |ordered|
  {
    var log, end := PassLog(ordered, answers, ids), Offset(ordered, answers, ids, i + 1);
    0 < end <= |log| && Runs(log[end - 1], ordered[i].id)
  }

  lemma EndsRunningIff(ordered: seq<Member>, answers: seq<Answer>, ids: map<string, string>, i: nat)
    requires |answers| == |ordered| && i < |ordered|
    ensures EndsRunning(ordered, answers, ids, i) <==> answers[i] != Refused
  {
    var log := PassLog(ordered, answers, ids);
    var lo, hi := Offset(ordered, answers, ids, i), Offset(ordered, answers, ids, i + 1);
    BlockAt(ordered, answers, ids, i);
    assert log[hi - 1] == log[lo..hi][hi - lo - 1];
  }

  lemma {:induction false} NoneRefused(answers: seq<Answer>)
    ensures Count(answers, Refused) == 0 <==> forall i | 0 <= i < |answers| :: answers[i] != Refused
  {
    if answers != [] {
      var n := |answers| - 1;
      NoneRefused(answers[..n]);
      if answers[n] != Refused {
        assert forall i | 0 <= i < n :: answers[..n][i] == answers[i];
      }
    }
  }

  /** A pass reports no failure exactly when its log shows every member running. */
  lemma {:induction false} NoFailureIffAllRunning(ordered: seq<Member>, answers: seq<Answer>, ids: map<string, string>)
    requires |answers| == |ordered|
    ensures Count(answers, Refused) == 0 <==> forall i | 0 <= i < |answers| :: EndsRunning(ordered, answers, ids, i)
  {
    NoneRefused(answers);
    forall i | 0 <= i < |answers| ensures EndsRunning(ordered, answers, ids, i) <==> answers[i] != Refused {
      EndsRunningIff(ordered, answers, ids, i);
    }
  }

  /** The members whose last exchange in the pass does not show them running. */
  ghost function NotRunning(ordered: seq<Member>, answers: seq<Answer>, ids: map<string, string>): set<nat>
    requires |answers| == |ordered|
  {
    set i: nat | i < |ordered| && !EndsRunning(ordered, answers, ids, i)
  }

  ghost function RefusedAt(answers: seq<Answer>): set<nat> {
    set i: nat | i < |answers| && answers[i] == Refused
  }

  lemma {:induction false} RefusedCount(answers: seq<Answer>)
    ensures Count(answers, Refused) == |RefusedAt(answers)|
  {
    if answers != [] {
      var n := |answers| - 1;
      var small, big := RefusedAt(answers[..n]), RefusedAt(answers);
      RefusedCount(answers[..n]);
      assert big == if answers[n] == Refused then small + {n} else small;
      CountsUp(n, small, big, answers[n] == Refused);
    }
  }

  /** What the counter holds: the number of those members. */
  lemma {:induction false} RefusedAreNotRunning(ordered: seq<Member>, answers: seq<Answer>, ids: map<string, string>)
    requires |answers| == |ordered|
    ensures Count(answers, Refused) == |NotRunning(ordered, answers, ids)|
  {
    RefusedCount(answers);
    forall i: nat | i < |ordered| ensures i in NotRunning(ordered, answers, ids) <==> i in RefusedAt(answers) {
      EndsRunningIff(ordered, answers, ids, i);
    }
    assert NotRunning(ordered, answers, ids) == RefusedAt(answers);
  }

  /** A start of some container succeeded. */
  ghost predicate SomeStarted(log: seq<Event>) {
    exists e :: e in log && e.Start? && e.ok
  }

  lemma {:induction false} StartedInLog(ordered: seq<Member>, answers: seq<Answer>, ids: map<string, string>)
    requires |answers| == |ordered|
    ensures SomeStarted(PassLog(ordered, answers, ids)) <==> Count(answers, Answer.Started) > 0
  {
    if ordered != [] {
      var n := |ordered| - 1;
      var before, block := PassLog(ordered[..n], answers[..n], ids), MemberLog(ordered[n], answers[n], ids);
      StartedInLog(ordered[..n], answers[..n], ids);
      StartedInBlock(ordered[n], answers[n], ids);
      if e :| e in before && e.Start? && e.ok {
        assert e in before + block;
      }
      if e :| e in block && e.Start? && e.ok {
        assert e in before + block;
      }
    }
  }

  lemma StartedInBlock(m: Member, answer: Answer, ids: map<string, string>)
    ensures SomeStarted(MemberLog(m, answer, ids)) <==> answer == Answer.Started
  {
    var log := MemberLog(m, answer, ids);
    if answer != Running {
      assert log[|log| - 1] == Start(m.id, answer == Answer.Started);
    }
    if e :| e in log && e.Start? && e.ok {
      var k :| 0 <= k < |log| && log[k] == e;
      if 0 < k < |log| - 1 {
        WaitsOnly(m.deps, ids, k - 1);
      }
    }
  }

  /** The loop pauses after a pass exactly when the pass started nothing. */
  lemma {:induction false} PauseIffNothingStarted(ordered: seq<Member>, answers: seq<Answer>, ids: map<string, string>)
    requires |answers| == |ordered|
    ensures PauseAfter(answers) == if SomeStarted(PassLog(ordered, answers, ids)) then [] else [Backoff]
  {
    StartedInLog(ordered, answers, ids);
  }

  /** The waits are those of each dependency in turn: one for a declared condition, none for a plain start. */
  lemma {:induction false} WaitsInTurn(a: seq<Dep>, b: seq<Dep>, d: Dep, ids: map<string, string>)
    ensures Waits(a + b, ids) == Waits(a, ids) + Waits(b, ids)
    ensures Waits([d], ids)
         == if d.service in ids && d.condition in {Healthy, CompletedSuccessfully}
            then [Await(ids[d.service], d.condition)] else []
    decreases |b|
  {
    if b == [] {
      assert a + b == a;
    } else {
      assert (a + b)[..|a + b| - 1] == a + b[..|b| - 1];
      WaitsInTurn(a, b[..|b| - 1], d, ids);
    }
    assert [d][..0] == [];
  }

  /** A member's block ends with the event that settles it. */
  lemma BlockEnd(ordered: seq<Member>, answers: seq<Answer>, ids: map<string, string>, j: nat) returns (k: nat)
    requires |answers| == |ordered| && j < |ordered|
    ensures k + 1 == Offset(ordered, answers, ids, j + 1) <= |PassLog(ordered, answers, ids)|
    ensures Settles(PassLog(ordered, answers, ids)[k], ordered[j].id)
  {
    BlockAt(ordered, answers, ids, j);
    k := Offset(ordered, answers, ids, j + 1) - 1;
    BlockSettles(PassLog(ordered, answers, ids), Offset(ordered, answers, ids, j), k + 1, ordered[j], answers[j], ids);
  }

  /** An earlier member is settled at a position before a later member's block. */
  lemma SettledBefore(ordered: seq<Member>, answers: seq<Answer>, ids: map<string, string>, j: nat, i: nat)
      returns (k: nat)
    requires |answers| == |ordered| && j < i < |ordered|
    ensures k < Offset(ordered, answers, ids, i) && k < |PassLog(ordered, answers, ids)|
    ensures Settles(PassLog(ordered, answers, ids)[k], ordered[j].id)
  {
    k := BlockEnd(ordered, answers, ids, j);
    OffsetsAscend(ordered, answers, ids, j + 1, i);
  }

  lemma {:induction false} WaitsOnly(deps: seq<Dep>, ids: map<string, string>, k: nat)
    requires k < |Waits(deps, ids)|
    ensures Waits(deps, ids)[k].Await?
  {
    var n := |deps| - 1;
    if k < |Waits(deps[..n], ids)| {
      WaitsOnly(deps[..n], ids, k);
    }
  }

  lemma {:induction false} WaitsCover(deps: seq<Dep>, ids: map<string, string>, d: Dep)
    requires d in deps && d.service in ids && d.condition != DepCondition.Started
    ensures Await(ids[d.service], d.condition) in Waits(deps, ids)
  {
    var n := |deps| - 1;
    if d in deps[..n] {
      WaitsCover(deps[..n], ids, d);
    } else {
      assert deps == deps[..n] + [deps[n]];
    }
  }

  predicate DistinctIds(members: seq<Member>) {
    forall i, j | 0 <= i < j < |members| :: members[i].id != members[j].id
  }

  predicate Settled(log: seq<Event>, id: string) {
    exists e :: e in log && Settles(e, id)
  }

  lemma SameId(members: seq<Member>, a: Member, b: Member)
    requires DistinctIds(members) && a in members && b in members && a.id == b.id
    ensures a == b
  {
  }

  /** Within a member's block, only its own container is settled, and only by the last exchange. */
  lemma SettlesOwn(
      log: seq<Event>, lo: nat, hi: nat, m: Member, answer: Answer, ids: map<string, string>, e: nat, id: string)
    requires lo <= e < hi <= |log| && log[lo..hi] == MemberLog(m, answer, ids) && Settles(log[e], id)
    ensures e == hi - 1 && id == m.id
  {
    var block := log[lo..hi];
    assert block[e - lo] == log[e];
    if 0 < e - lo < |block| - 1 {
      WaitsOnly(m.deps, ids, e - lo - 1);
    }
  }

  /** What settles a container lies in a block of its own. */
  lemma {:induction false} SettledInBlock(
      ordered: seq<Member>, answers: seq<Answer>, ids: map<string, string>, e: nat, id: string) returns (j: nat)
    requires |answers| == |ordered| && e < |PassLog(ordered, answers, ids)|
    requires Settles(PassLog(ordered, answers, ids)[e], id)
    ensures j < |ordered| && ordered[j].id == id && e + 1 == Offset(ordered, answers, ids, j + 1)
  {
    j := BlockOf(ordered, answers, ids, e);
    BlockAt(ordered, answers, ids, j);
    SettlesOwn(PassLog(ordered, answers, ids), Offset(ordered, answers, ids, j),
               Offset(ordered, answers, ids, j + 1), ordered[j], answers[j], ids, e, id);
  }

  predicate AmongFirst(ordered: seq<Member>, i: nat, id: string)
    requires i <= |ordered|
  {
    exists j :: 0 <= j < i && ordered[j].id == id
  }

  lemma {:induction false} SettledAreEarlier(
      ordered: seq<Member>, answers: seq<Answer>, ids: map<string, string>, i: nat, k: nat, id: string)
    requires |answers| == |ordered| && i < |ordered| && k < |PassLog(ordered, answers, ids)|
    requires k + 1 == Offset(ordered, answers, ids, i + 1) && Settled(PassLog(ordered, answers, ids)[..k], id)
    ensures AmongFirst(ordered, i, id)
  {
    var log := PassLog(ordered, answers, ids);
    var e :| 0 <= e < k && Settles(log[..k][e], id);
    var j := SettledInBlock(ordered, answers, ids, e, id);
    if j >= i {
      OffsetsAscend(ordered, answers, ids, i + 1, j + 1);
    }
  }

  lemma {:induction false} EarlierAreSettled(
      ordered: seq<Member>, answers: seq<Answer>, ids: map<string, string>, i: nat, k: nat, id: string)
    requires |answers| == |ordered| && i < |ordered| && k < |PassLog(ordered, answers, ids)|
    requires k + 1 == Offset(ordered, answers, ids, i + 1) && AmongFirst(ordered, i, id)
    ensures Settled(PassLog(ordered, answers, ids)[..k], id)
  {
    var log := PassLog(ordered, answers, ids);
    var j :| 0 <= j < i && ordered[j].id == id;
    var e := SettledBefore(ordered, answers, ids, j, i);
    BlockAt(ordered, answers, ids, i);
    assert log[..k][e] == log[e];
  }

  /**
   * Main result, against any daemon and for any dependencies: when a pass issues a start, the containers found
   * running or attempted before it are exactly those of the members that precede the one it is for.
   */
  lemma SettledIffPrecedes(members: seq<Member>, answers: seq<Answer>, k: nat) returns (m: Member)
    requires DistinctIds(members) && |answers| == |Order(members)|
    requires k < |PassLog(Order(members), answers, IdByService(members))|
    requires PassLog(Order(members), answers, IdByService(members))[k].Start?
    ensures var log := PassLog(Order(members), answers, IdByService(members));
            && m in members && log[k].id == m.id
            && forall r | r in members :: Settled(log[..k], r.id) <==> Precedes(members, r, m)
  {
    var ordered, ids := Order(members), IdByService(members);
    var log := PassLog(ordered, answers, ids);
    var i := BlockOf(ordered, answers, ids, k);
    m := ordered[i];
    OrderMembers(members, i);
    BlockAt(ordered, answers, ids, i);
    StartEndsBlock(log, Offset(ordered, answers, ids, i), Offset(ordered, answers, ids, i + 1), m, answers[i], ids, k);
    forall r | r in members ensures Settled(log[..k], r.id) <==> Precedes(members, r, m) {
      EarlierIffPrecedes(members, i, r);
      if Settled(log[..k], r.id) {
        SettledAreEarlier(ordered, answers, ids, i, k, r.id);
      }
      if AmongFirst(ordered, i, r.id) {
        EarlierAreSettled(ordered, answers, ids, i, k, r.id);
      }
    }
  }

  lemma {:induction false} StartProbed(
      ordered: seq<Member>, answers: seq<Answer>, ids: map<string, string>, k: nat) returns (i: nat)
    requires |answers| == |ordered| && k < |PassLog(ordered, answers, ids)|
    requires PassLog(ordered, answers, ids)[k].Start?
    ensures i < |ordered| && k + 1 == Offset(ordered, answers, ids, i + 1)
    ensures var log := PassLog(ordered, answers, ids);
            log[k].id == ordered[i].id && Probe(log[k].id, false) in log[..k]
  {
    var log := PassLog(ordered, answers, ids);
    i := BlockOf(ordered, answers, ids, k);
    var lo, hi := Offset(ordered, answers, ids, i), Offset(ordered, answers, ids, i + 1);
    BlockAt(ordered, answers, ids, i);
    StartEndsBlock(log, lo, hi, ordered[i], answers[i], ids, k);
    FirstOfBlock(log, lo, hi, k, ordered[i], answers[i], ids);
  }

  lemma FirstOfBlock(
      log: seq<Event>, lo: nat, hi: nat, k: nat, m: Member, answer: Answer, ids: map<string, string>)
    requires lo <= k < hi <= |log| && log[lo..hi] == MemberLog(m, answer, ids) && log[k].Start?
    ensures Probe(m.id, false) in log[..k]
  {
    assert log[k] == log[lo..hi][k - lo];
    assert log[lo] == log[lo..hi][0] && log[..k][lo] == log[lo];
  }

  /** A container is started only if it was found not running, and never found running in the same pass. */
  lemma {:induction false} StartedOnlyIfDown(
      ordered: seq<Member>, answers: seq<Answer>, ids: map<string, string>, k: nat)
    requires DistinctIds(ordered) && |answers| == |ordered| && k < |PassLog(ordered, answers, ids)|
    requires PassLog(ordered, answers, ids)[k].Start?
    ensures var log := PassLog(ordered, answers, ids);
            Probe(log[k].id, false) in log[..k] && Probe(log[k].id, true) !in log
  {
    var log := PassLog(ordered, answers, ids);
    var i := StartProbed(ordered, answers, ids, k);
    if Probe(log[k].id, true) in log {
      var e :| 0 <= e < |log| && log[e] == Probe(log[k].id, true);
      var j := SettledInBlock(ordered, answers, ids, e, log[k].id);
    }
  }

  lemma EarlierIffPrecedes(members: seq<Member>, i: nat, r: Member)
    requires DistinctIds(members) && i < |Order(members)| && r in members
    ensures AmongFirst(Order(members), i, r.id) <==> Precedes(members, r, Order(members)[i])
  {
    if j :| 0 <= j < i && Order(members)[j].id == r.id {
      OrderMembers(members, j);
      SameId(members, Order(members)[j], r);
      PositionIff(members, i, j);
    }
    if Precedes(members, r, Order(members)[i]) {
      var j := PositionOf(members, r);
      PositionIff(members, i, j);
    }
  }

  /**
   * Safety of a start pass against any daemon: when a start is issued, every condition the member declares was
   * awaited earlier in the pass; and where replicas agree and the member reaches no cycle, every replica of every
   * in-stack service it wants was found running or attempted earlier.
   */
  lemma StartsFollowDependencies(members: seq<Member>, answers: seq<Answer>, k: nat) returns (m: Member)
    requires |answers| == |Order(members)|
    requires k < |PassLog(Order(members), answers, IdByService(members))|
    requires PassLog(Order(members), answers, IdByService(members))[k].Start?
    ensures var log := PassLog(Order(members), answers, IdByService(members));
            && m in members && log[k].id == m.id
            && (Uniform(Elements(members)) && !ReachesCycle(Elements(members), m.service) ==>
                  forall r | r in members && r.service in Wants(m, Services(Elements(members))) ::
                    Settled(log[..k], r.id))
            && (forall d | d in m.deps && d.service in IdByService(members) && d.condition != DepCondition.Started ::
                  Await(IdByService(members)[d.service], d.condition) in log[..k])
  {
    var ordered, ids := Order(members), IdByService(members);
    var log := PassLog(ordered, answers, ids);
    var i := BlockOf(ordered, answers, ids, k);
    m := ordered[i];
    OrderMembers(members, i);
    var lo, hi := Offset(ordered, answers, ids, i), Offset(ordered, answers, ids, i + 1);
    BlockAt(ordered, answers, ids, i);
    StartEndsBlock(log, lo, hi, m, answers[i], ids, k);
    if Uniform(Elements(members)) && !ReachesCycle(Elements(members), m.service) {
      forall r | r in members && r.service in Wants(m, Services(Elements(members)))
        ensures Settled(log[..k], r.id)
      {
        var j := DependencyPosition(members, i, r);
        var e := SettledBefore(ordered, answers, ids, j, i);
        assert log[..k][e] == log[e] && log[e] in log[..k];
      }
    }
  }

  /** Inside a member's block the start comes last, after all the waits. */
  lemma StartEndsBlock(
      log: seq<Event>, lo: nat, hi: nat, m: Member, answer: Answer, ids: map<string, string>, k: nat)
    requires lo <= k < hi <= |log| && log[lo..hi] == MemberLog(m, answer, ids) && log[k].Start?
    ensures k == hi - 1 && log[k].id == m.id
    ensures forall d | d in m.deps && d.service in ids && d.condition != DepCondition.Started ::
              Await(ids[d.service], d.condition) in log[..k]
  {
    var block, waits := log[lo..hi], Waits(m.deps, ids);
    assert block[k - lo] == log[k];
    if 0 < k - lo < |block| - 1 {
      WaitsOnly(m.deps, ids, k - lo - 1);
    }
    forall d | d in m.deps && d.service in ids && d.condition != DepCondition.Started
      ensures Await(ids[d.service], d.condition) in log[..k]
    {
      WaitsCover(m.deps, ids, d);
      var w :| 0 <= w < |waits| && waits[w] == Await(ids[d.service], d.condition);
      assert log[..k][lo + 1 + w] == block[1 + w] == waits[w];
    }
  }

  /** In the order, a member that reaches no cycle comes after each replica it wants. */
  lemma DependencyPosition(members: seq<Member>, i: nat, r: Member) returns (j: nat)
    requires Uniform(Elements(members)) && i < |Order(members)|
    requires !ReachesCycle(Elements(members), Order(members)[i].service)
    requires r in members && r.service in Wants(Order(members)[i], Services(Elements(members)))
    ensures j < i && Order(members)[j] == r
  {
    OrderIsPermutation(members);
    assert r in multiset(members);
    j :| 0 <= j < |Order(members)| && Order(members)[j] == r;
    if i >= |PlanOf(members).ordered| {
      var f := Order(members)[i];
      assert f in PlanOf(members).fallback;
      FallbackReachesCycle(members, f);
    }
    EveryReplicaFirst(members, i, j);
  }

  /** Main result, for any dependencies: `m` is stopped before `r` exactly when `r` precedes `m`. */
  lemma StoppedIffPrecedes(members: seq<Member>, oks: seq<bool>, a: nat, b: nat, m: Member, r: Member)
    requires DistinctIds(members) && |oks| == |Order(members)| && a < |oks| && b < |oks|
    requires m in members && StopLog(Reversed(Order(members)), oks)[a] == Stop(m.id, oks[a])
    requires r in members && StopLog(Reversed(Order(members)), oks)[b] == Stop(r.id, oks[b])
    ensures a < b <==> Precedes(members, r, m)
  {
    var i, j := |oks| - 1 - a, |oks| - 1 - b;
    OrderMembers(members, i);
    OrderMembers(members, j);
    SameId(members, Order(members)[i], m);
    SameId(members, Order(members)[j], r);
    PositionIff(members, i, j);
  }

  /** Where replicas agree, every dependent that reaches no cycle is stopped before what it depends on. */
  lemma StopsDependentsFirst(members: seq<Member>, oks: seq<bool>, m: Member, r: Member)
    requires Uniform(Elements(members)) && |oks| == |Order(members)|
    requires m in members && r in members && r.service in Wants(m, Services(Elements(members)))
    requires !ReachesCycle(Elements(members), m.service)
    ensures exists a, b :: 0 <= a < b < |oks|
              && StopLog(Reversed(Order(members)), oks)[a] == Stop(m.id, oks[a])
              && StopLog(Reversed(Order(members)), oks)[b] == Stop(r.id, oks[b])
  {
    var order, n := Order(members), |Order(members)|;
    OrderIsPermutation(members);
    assert m in multiset(members);
    var i :| 0 <= i < n && order[i] == m;
    var j := DependencyPosition(members, i, r);
    var log := StopLog(Reversed(order), oks);
    assert log[n - 1 - i] == Stop(m.id, oks[n - 1 - i]);
    assert log[n - 1 - j] == Stop(r.id, oks[n - 1 - j]);
  }

  /** A dependency's condition is awaited on the replica listed last. */
  lemma {:induction false} LastReplicaIsAwaited(members: seq<Member>, i: nat)
    requires i < |members| && forall j | i < j < |members| :: members[j].service != members[i].service
    ensures members[i].service in IdByService(members)
    ensures IdByService(members)[members[i].service] == members[i].id
    decreases |members|
  {
    var n := |members| - 1;
    if i < n {
      assert members[..n][i] == members[i];
      LastReplicaIsAwaited(members[..n], i);
    }
  }
}
