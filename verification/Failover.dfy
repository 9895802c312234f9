/**
 The failover transport: any number of concurrent requests share the atomics `active`, `healthy` and
 `failovers`. Every atomic access, probe and send of every request is one step.
 */
module Failover {

  /** Where one request stands. The comments name the access that comes next. */
  datatype Pc =
    | Started                                              // load healthy
    | Fast                                                 // load active
    | FastSend(index: nat)                                 // send to it
    | FastFailed                                           // store healthy := false
    | Slow(skip: nat)                                      // load active
    | Probing(start: nat, skip: nat, offset: nat)          // probe the next endpoint, or give up
    | Sending(start: nat, skip: nat, offset: nat, index: nat)  // send to the endpoint that answered
    | Switching(start: nat, index: nat)                    // compare-and-swap, or store, active
    | Counting                                             // add one to failovers
    | Marking                                              // store healthy := true
    | Finished(outcome: Outcome)

  /** How a request ends: with a response, by its caller, or after the last endpoint. */
  datatype Outcome = Answered | Cancelled | Exhausted

  datatype State = State(
    active: nat,
    healthy: bool,
    failovers: nat,
    requests: map<nat, Pc>,
    answered: set<nat>,            // endpoints that have answered with the right chain ID
    delivered: set<nat>,           // endpoints that may have received a payload
    tried: map<nat, seq<nat>>)     // endpoints that each request's slow loop has probed

  datatype Event =
    | Arrive
    | Advance                   // the atomic access that comes next
    | Answer(good: bool)        // a probe returns
    | Reply(ok: bool)           // a send returns
    | Cancel                    // the caller's context ends

  /** The endpoint that the slow loop tries at this offset. */
  function Index(start: nat, skip: nat, offset: nat, n: nat): (index: nat)
    requires 0 < n
    ensures index < n
  {
    (start + skip + offset) % n
  }

  predicate Enabled(s: State, r: nat, e: Event, n: nat) {
    if e.Arrive? then r !in s.requests
    else
      && r in s.requests
      && match s.requests[r]
         case Started => e.Advance?
         case Fast => e.Advance? || e.Cancel?
         case FastSend(_) => e.Reply? || e.Cancel?
         case FastFailed => e.Advance?
         case Slow(_) => e.Advance?
         case Probing(_, _, offset) => e.Cancel? || (if offset < n then e.Answer? else e.Advance?)
         case Sending(_, _, _, _) => e.Reply?
         case Switching(_, _) => e.Advance?
         case Counting => e.Advance?
         case Marking => e.Advance?
         case Finished(_) => false
  }

  function Step(s: State, r: nat, e: Event, n: nat): State
    requires 0 < n && Enabled(s, r, e, n)
  {
    if e.Arrive? then s.(requests := s.requests[r := Started])
    else
      match s.requests[r]
      case Started => Go(s, r, if s.healthy then Fast else Slow(0))
      case Fast => Go(s, r, if e.Cancel? then Finished(Cancelled) else FastSend(s.active % n))
      case FastSend(index) =>
        var sent := s.(delivered := s.delivered + {index});
        Go(sent, r, if e.Cancel? then Finished(Cancelled) else if e.ok then Finished(Answered) else FastFailed)
      case FastFailed => Go(s.(healthy := false), r, Slow(1))
      case Slow(skip) => Go(s.(tried := s.tried[r := []]), r, Probing(s.active, skip, 0))
      case Probing(start, skip, offset) =>
        if e.Cancel? then Go(s, r, Finished(Cancelled))
        else if offset >= n then Go(s, r, Finished(Exhausted))
        else
          var index := Index(start, skip, offset, n);
          var probed := s.(tried := s.tried[r := (if r in s.tried then s.tried[r] else []) + [index]]);
          if e.good then Go(probed.(answered := s.answered + {index}), r, Sending(start, skip, offset, index))
          else Go(probed, r, Probing(start, skip, offset + 1))
      case Sending(start, skip, offset, index) =>
        var sent := s.(delivered := s.delivered + {index});
        Go(sent, r, if e.ok then Switching(start, index) else Probing(start, skip, offset + 1))
      case Switching(start, index) =>
        if index == start then Go(s.(active := index), r, Marking)
        else if s.active == start then Go(s.(active := index), r, Counting)
        else Go(s, r, Marking)
      case Counting => Go(s.(failovers := s.failovers + 1), r, Marking)
      case Marking => Go(s.(healthy := true), r, Finished(Answered))
  }

  function Go(s: State, r: nat, pc: Pc): State {
    s.(requests := s.requests[r := pc])
  }

  const START: State := State(0, false, 0, map[], {}, {}, map[])

  // ---- The invariant ---------------------------------------------------------------------------------

  /** The endpoints at the first offsets of a slow loop. */
  function Turns(start: nat, skip: nat, count: nat, n: nat): (turns: seq<nat>)
    requires 0 < n
    ensures |turns| == count
  {
    if count == 0 then [] else Turns(start, skip, count - 1, n) + [Index(start, skip, count - 1, n)]
  }

  ghost predicate Tried(s: State, r: nat, turns: seq<nat>) {
    r in s.tried && s.tried[r] == turns
  }

  ghost predicate Distinct(turns: seq<nat>) {
    forall a, b | 0 <= a < b < |turns| :: turns[a] != turns[b]
  }

  ghost predicate Complete(turns: seq<nat>, n: nat) {
    forall target: nat :: target < n ==> target in turns
  }

  /** A request that has left the slow loop, or never entered it, has probed no endpoint twice. */
  ghost predicate TriedOnce(s: State, r: nat) {
    r in s.tried ==> Distinct(s.tried[r])
  }

  /** `written` says whether any request has stored to `active` yet. */
  ghost predicate PcInv(r: nat, pc: Pc, s: State, written: bool, n: nat)
    requires 0 < n
  {
    match pc
    case Fast => written && r !in s.tried
    case FastSend(index) => index in s.answered && r !in s.tried
    case Probing(start, skip, offset) =>
      start < n && offset <= n && (!written ==> start == 0) && Tried(s, r, Turns(start, skip, offset, n))
    case Sending(start, skip, offset, index) =>
      && start < n && offset < n && (!written ==> start == 0)
      && index < n && index in s.answered && Tried(s, r, Turns(start, skip, offset + 1, n))
    case Switching(start, index) =>
      start < n && (!written ==> start == 0) && index < n && index in s.answered && TriedOnce(s, r)
    case Counting => written && TriedOnce(s, r)
    case Marking => written && TriedOnce(s, r)
    case Finished(outcome) =>
      TriedOnce(s, r) && (outcome.Exhausted? ==> r in s.tried && Complete(s.tried[r], n))
    case _ => r !in s.tried
  }

  ghost predicate SharedInv(s: State, written: bool, n: nat) {
    && s.active < n
    && (if written then s.active in s.answered else s.active == 0 && !s.healthy)
    && s.delivered <= s.answered
  }

  ghost predicate Inv(s: State, written: bool, n: nat)
    requires 0 < n
  {
    && SharedInv(s, written, n)
    && s.tried.Keys <= s.requests.Keys
    && forall r <- s.requests :: PcInv(r, s.requests[r], s, written, n)
  }

  lemma SmallRemainder(a: nat, n: nat)
    requires a < n
    ensures a % n == a
  {
  }

  lemma {:induction false} TurnsAre(start: nat, skip: nat, count: nat, n: nat)
    requires 0 < n
    ensures forall k | 0 <= k < count :: Turns(start, skip, count, n)[k] == Index(start, skip, k, n)
  {
    if count > 0 {
      TurnsAre(start, skip, count - 1, n);
    }
  }

  /** A slow loop never tries an endpoint twice, and in n turns it tries them all, wherever it starts. */
  lemma VisitsEachOnce(start: nat, skip: nat, count: nat, n: nat)
    requires 0 < n && count <= n
    ensures Distinct(Turns(start, skip, count, n))
    ensures count == n ==> Complete(Turns(start, skip, count, n), n)
  {
    TurnsAre(start, skip, count, n);
    forall a, b | 0 <= a < b < count ensures Index(start, skip, a, n) != Index(start, skip, b, n) {
      ShiftDistinct(start + skip, a, b, n);
    }
    if count == n {
      forall target: nat | target < n ensures target in Turns(start, skip, count, n) {
        var k := ShiftReaches(start + skip, target, n);
        assert Turns(start, skip, count, n)[k] == target;
      }
    }
  }

  lemma MultipleInRange(d: int, n: int)
    requires 0 < n && -n < d * n < n
    ensures d == 0
  {
  }

  lemma ShiftDistinct(base: nat, a: nat, b: nat, n: nat)
    requires 0 < n && a < b < n
    ensures (base + a) % n != (base + b) % n
  {
    var qa, qb := (base + a) / n, (base + b) / n;
    var ra, rb := (base + a) % n, (base + b) % n;
    assert base + a == qa * n + ra && base + b == qb * n + rb;
    if ra == rb {
      assert (qb - qa) * n == b - a;
      MultipleInRange(qb - qa, n);
    }
  }

  lemma ShiftReaches(base: nat, target: nat, n: nat) returns (k: nat)
    requires 0 < n && target < n
    ensures k < n && (base + k) % n == target
  {
    var q, r := base / n, base % n;
    assert base == q * n + r;
    if r <= target {
      k := target - r;
      RemainderIs(base + k, q, target, n);
    } else {
      k := n - r + target;
      assert base + k == (q + 1) * n + target;
      RemainderIs(base + k, q + 1, target, n);
    }
  }

  lemma RemainderIs(value: nat, q: nat, r: nat, n: nat)
    requires 0 < n && r < n && value == q * n + r
    ensures value % n == r
  {
    var q', r' := value / n, value % n;
    assert value == q' * n + r';
    assert (q' - q) * n == r - r';
    MultipleInRange(q' - q, n);
  }

  /** The probe of the slow loop: the endpoint it asks is the next one in turn. */
  lemma ProbeStep(s: State, written: bool, r: nat, e: Event, n: nat)
    requires 0 < n && SharedInv(s, written, n) && Enabled(s, r, e, n)
    requires r in s.requests && s.requests[r].Probing? && PcInv(r, s.requests[r], s, written, n)
    ensures var s' := Step(s, r, e, n);
      SharedInv(s', written, n) && PcInv(r, s'.requests[r], s', written, n)
  {
    var Probing(start, skip, offset) := s.requests[r];
    VisitsEachOnce(start, skip, offset, n);
    if offset < n && e.Answer? {
      var index := Index(start, skip, offset, n);
      assert Turns(start, skip, offset + 1, n) == Turns(start, skip, offset, n) + [index];
    }
  }

  /** The request that moves keeps the shared state and its own place. */
  lemma OwnStep(s: State, written: bool, r: nat, e: Event, n: nat) returns (written': bool)
    requires 0 < n && SharedInv(s, written, n) && Enabled(s, r, e, n)
    requires if r in s.requests then PcInv(r, s.requests[r], s, written, n) else r !in s.tried
    ensures var s' := Step(s, r, e, n);
      SharedInv(s', written', n) && PcInv(r, s'.requests[r], s', written', n) && (written ==> written')
  {
    written' := written || (r in s.requests && s.requests[r].Switching?);
    if r in s.requests {
      if s.requests[r].Probing? {
        ProbeStep(s, written, r, e, n);
      } else if s.requests[r].Sending? {
        VisitsEachOnce(s.requests[r].start, s.requests[r].skip, s.requests[r].offset + 1, n);
      } else if s.requests[r].Fast? {
        SmallRemainder(s.active, n);
      } else if s.requests[r].Slow? {
        assert Turns(s.active, s.requests[r].skip, 0, n) == [];
      }
    }
  }

  lemma StepFrame(s: State, r: nat, e: Event, n: nat)
    requires 0 < n && Enabled(s, r, e, n)
    ensures var s' := Step(s, r, e, n);
      && s.answered <= s'.answered
      && s'.requests.Keys == s.requests.Keys + {r}
      && (forall q <- s.requests :: q != r ==> s'.requests[q] == s.requests[q])
      && (forall q <- s.tried :: q != r ==> q in s'.tried && s'.tried[q] == s.tried[q])
      && s'.tried.Keys <= s.tried.Keys + {r}
  {
  }

  lemma StepKeeps(s: State, written: bool, r: nat, e: Event, n: nat) returns (written': bool)
    requires 0 < n && Inv(s, written, n) && Enabled(s, r, e, n)
    ensures Inv(Step(s, r, e, n), written', n)
  {
    var s' := Step(s, r, e, n);
    written' := OwnStep(s, written, r, e, n);
    StepFrame(s, r, e, n);
    forall q <- s'.requests ensures PcInv(q, s'.requests[q], s', written', n) {
      if q != r {
        OthersStay(q, s, s', written, written', n);
      }
    }
  }

  lemma OthersStay(q: nat, s: State, s': State, written: bool, written': bool, n: nat)
    requires 0 < n && q in s.requests && PcInv(q, s.requests[q], s, written, n)
    requires q in s'.requests && s'.requests[q] == s.requests[q]
    requires s.answered <= s'.answered && (written ==> written')
    requires if q in s.tried then q in s'.tried && s'.tried[q] == s.tried[q] else q !in s'.tried
    ensures PcInv(q, s'.requests[q], s', written', n)
  {
  }

  // ---- Runs ------------------------------------------------------------------------------------------

  datatype Move = Move(request: nat, event: Event)

  ghost predicate IsRun(states: seq<State>, moves: seq<Move>, n: nat)
    requires 0 < n
  {
    && |states| == |moves| + 1 && states[0] == START
    && forall i | 0 <= i < |moves| ::
         Enabled(states[i], moves[i].request, moves[i].event, n)
         && states[i + 1] == Step(states[i], moves[i].request, moves[i].event, n)
  }

  lemma {:induction false} RunInv(states: seq<State>, moves: seq<Move>, n: nat, i: nat) returns (written: bool)
    requires 0 < n && IsRun(states, moves, n) && i <= |moves|
    ensures Inv(states[i], written, n)
  {
    if i == 0 {
      written := false;
    } else {
      var before := RunInv(states, moves, n, i - 1);
      written := StepKeeps(states[i - 1], before, moves[i - 1].request, moves[i - 1].event, n);
    }
  }

  /** Whenever `healthy` is true, the active endpoint has already answered with the right chain ID. */
  lemma HealthyMeansAnswered(states: seq<State>, moves: seq<Move>, n: nat, i: nat)
    requires 0 < n && IsRun(states, moves, n) && i <= |moves|
    ensures states[i].active < n
    ensures states[i].healthy ==> states[i].active in states[i].answered
  {
    var written := RunInv(states, moves, n, i);
  }

  /** No payload ever goes to an endpoint that had not answered with the right chain ID before. */
  lemma OnlyAnsweredEndpointsGetPayloads(states: seq<State>, moves: seq<Move>, n: nat, i: nat)
    requires 0 < n && IsRun(states, moves, n) && i < |moves|
    ensures states[i + 1].delivered <= states[i].answered
  {
    var written := RunInv(states, moves, n, i);
    DeliveryStep(states[i], written, moves[i].request, moves[i].event, n);
  }

  lemma DeliveryStep(s: State, written: bool, r: nat, e: Event, n: nat)
    requires 0 < n && Inv(s, written, n) && Enabled(s, r, e, n)
    ensures Step(s, r, e, n).delivered <= s.answered
  {
    assert r in s.requests ==> PcInv(r, s.requests[r], s, written, n);
  }

  /** In every run, whatever became of a request, its slow loop has probed no endpoint twice, and a request that
      gave up had probed them all. */
  lemma SlowLoopVisitsEachOnce(states: seq<State>, moves: seq<Move>, n: nat, i: nat, r: nat)
    requires 0 < n && IsRun(states, moves, n) && i <= |moves|
    ensures r in states[i].tried ==> Distinct(states[i].tried[r])
    ensures r in states[i].requests && states[i].requests[r] == Finished(Exhausted) ==>
      r in states[i].tried && Complete(states[i].tried[r], n)
  {
    var written := RunInv(states, moves, n, i);
    if r in states[i].requests {
      var pc := states[i].requests[r];
      assert PcInv(r, pc, states[i], written, n);
      if pc.Probing? {
        VisitsEachOnce(pc.start, pc.skip, pc.offset, n);
      } else if pc.Sending? {
        VisitsEachOnce(pc.start, pc.skip, pc.offset + 1, n);
      }
    }
  }

  // ---- How a request ends ------------------------------------------------------------------------------------

  /** The reply to the last send of a request, if it has sent at all. */
  function LastReply(moves: seq<Move>, r: nat): Reply {
    if moves == [] then NoReply
    else
      var last := moves[|moves| - 1];
      if last.request == r && last.event.Reply? then Replied(last.event.ok) else LastReply(moves[..|moves| - 1], r)
  }

  datatype Reply = NoReply | Replied(ok: bool)

  /** A request that has its response and is on its way to hand it out, or has. */
  predicate Served(s: State, r: nat) {
    r in s.requests
    && (s.requests[r].Switching? || s.requests[r].Counting? || s.requests[r].Marking?
      || s.requests[r] == Finished(Answered))
  }

  lemma StepServes(s: State, r: nat, e: Event, n: nat)
    requires 0 < n && Enabled(s, r, e, n)
    ensures Served(Step(s, r, e, n), r) <==> if e.Reply? then e.ok else Served(s, r)
    ensures forall q :: q != r ==> (Served(Step(s, r, e, n), q) <==> Served(s, q))
  {
  }

  /** In every run, a request is served exactly if the last reply that it got was good; so it ends as answered only by
      that reply, and after it in no other way. */
  lemma {:induction false} ServedByReply(states: seq<State>, moves: seq<Move>, n: nat, i: nat, r: nat)
    requires 0 < n && IsRun(states, moves, n) && i <= |moves|
    ensures Served(states[i], r) <==> LastReply(moves[..i], r) == Replied(true)
  {
    if i > 0 {
      ServedByReply(states, moves, n, i - 1, r);
      assert moves[..i][..i - 1] == moves[..i - 1];
      var move := moves[i - 1];
      assert states[i] == Step(states[i - 1], move.request, move.event, n);
      StepServes(states[i - 1], move.request, move.event, n);
    }
  }

  /** The request has read `healthy` and may still send at once. */
  predicate BeforeSlow(s: State, r: nat) {
    r in s.requests && (s.requests[r].Started? || s.requests[r].Fast? || s.requests[r].FastSend?)
  }

  lemma StepLeavesFast(s: State, q: nat, e: Event, n: nat, r: nat)
    requires 0 < n && Enabled(s, q, e, n) && r in s.requests && !BeforeSlow(s, r)
    ensures r in Step(s, q, e, n).requests && !BeforeSlow(Step(s, q, e, n), r)
  {
  }

  /** A request that has left the fast path never sends by it again. */
  lemma {:induction false} NeverFastAgain(states: seq<State>, moves: seq<Move>, n: nat, i: nat, j: nat, r: nat)
    requires 0 < n && IsRun(states, moves, n) && i <= j <= |moves| && r in states[i].requests
      && !BeforeSlow(states[i], r)
    ensures r in states[j].requests && !BeforeSlow(states[j], r)
    decreases j - i
  {
    if i < j {
      NeverFastAgain(states, moves, n, i, j - 1, r);
      StepLeavesFast(states[j - 1], moves[j - 1].request, moves[j - 1].event, n, r);
    }
  }

  lemma OthersRest(s: State, r: nat, e: Event, n: nat, q: nat)
    requires 0 < n && Enabled(s, r, e, n) && q in s.requests && q != r
    ensures q in Step(s, r, e, n).requests && Step(s, r, e, n).requests[q] == s.requests[q]
  {
  }

  lemma OneRests(states: seq<State>, moves: seq<Move>, n: nat, i: nat, r: nat)
    requires 0 < n && IsRun(states, moves, n) && i < |moves| && r in states[i].requests && moves[i].request != r
    ensures r in states[i + 1].requests && states[i + 1].requests[r] == states[i].requests[r]
  {
    OthersRest(states[i], moves[i].request, moves[i].event, n, r);
  }

  /** Nobody moves a request but itself. */
  lemma {:induction false} Rests(states: seq<State>, moves: seq<Move>, n: nat, i: nat, j: nat, r: nat)
    requires 0 < n && IsRun(states, moves, n) && i <= j <= |moves| && r in states[i].requests
    requires forall k | i <= k < j :: moves[k].request != r
    ensures r in states[j].requests && states[j].requests[r] == states[i].requests[r]
    decreases j - i
  {
    if i < j {
      Rests(states, moves, n, i, j - 1, r);
      OneRests(states, moves, n, j - 1, r);
    }
  }

  /** The move of a failed fast send. */
  predicate FastFails(s: State, move: Move) {
    move.request in s.requests && s.requests[move.request].FastSend? && move.event == Reply(false)
  }

  /** A request whose fast send failed next stores `healthy` := false, and then reads the active endpoint and begins
      with the one after it. */
  lemma FailedSendFailsOver(states: seq<State>, moves: seq<Move>, n: nat, i: nat, j: nat, k: nat)
    requires 0 < n && IsRun(states, moves, n) && i < j < k < |moves| && FastFails(states[i], moves[i])
    requires moves[j].request == moves[k].request == moves[i].request
    requires forall m | i < m < k && m != j :: moves[m].request != moves[i].request
    ensures !states[j + 1].healthy
    ensures var r, start := moves[i].request, states[k].active;
      && r in states[k + 1].requests && states[k + 1].requests[r] == Probing(start, 1, 0)
      && Index(start, 1, 0, n) == (start + 1) % n
  {
    var r := moves[i].request;
    Rests(states, moves, n, i + 1, j, r);
    Rests(states, moves, n, j + 1, k, r);
  }

  /** Move m is the good reply to a send of the slow loop. */
  ghost predicate SlowReply(states: seq<State>, moves: seq<Move>, m: nat, r: nat)
    requires m < |moves| && m < |states|
  {
    moves[m] == Move(r, Reply(true)) && r in states[m].requests && states[m].requests[r].Sending?
  }

  /** And it ends only by its caller, by a good reply to a send of its slow loop, or after all endpoints. */
  lemma FailedSendEnds(states: seq<State>, moves: seq<Move>, n: nat, i: nat, j: nat)
    requires 0 < n && IsRun(states, moves, n) && i < j <= |moves| && FastFails(states[i], moves[i])
    ensures var r := moves[i].request;
      r in states[j].requests && states[j].requests[r].Finished? ==>
        match states[j].requests[r].outcome
        case Cancelled => LastReply(moves[..j], r) != Replied(true)
        case Answered => exists m | i < m < j :: SlowReply(states, moves, m, r)
        case Exhausted =>
          LastReply(moves[..j], r) != Replied(true) && r in states[j].tried && Complete(states[j].tried[r], n)
  {
    var r := moves[i].request;
    ServedByReply(states, moves, n, j, r);
    SlowLoopVisitsEachOnce(states, moves, n, j, r);
    if r in states[j].requests && states[j].requests[r] == Finished(Answered) {
      var m := GoodReply(moves[..j], r);
      LastReplyIs(moves[..j], i, m, r);
      NeverFastAgain(states, moves, n, i + 1, m, r);
      assert SlowReply(states, moves, m, r);
    }
  }

  lemma {:induction false} GoodReply(moves: seq<Move>, r: nat) returns (m: nat)
    requires LastReply(moves, r) == Replied(true)
    ensures m < |moves| && moves[m] == Move(r, Reply(true))
    ensures forall k | m < k < |moves| :: !(moves[k].request == r && moves[k].event.Reply?)
  {
    var last := moves[|moves| - 1];
    if last.request == r && last.event.Reply? {
      m := |moves| - 1;
    } else {
      m := GoodReply(moves[..|moves| - 1], r);
    }
  }

  lemma LastReplyIs(moves: seq<Move>, i: nat, m: nat, r: nat)
    requires i < |moves| && m < |moves| && moves[i] == Move(r, Reply(false)) && moves[m] == Move(r, Reply(true))
    requires forall k | m < k < |moves| :: !(moves[k].request == r && moves[k].event.Reply?)
    ensures i < m
  {
  }

  // ---- The shared atomics ------------------------------------------------------------------------------------

  /** Only a failed fast send stores that nobody is healthy, and only a served request that somebody is. */
  lemma HealthyChangesExactly(s: State, r: nat, e: Event, n: nat)
    requires 0 < n && Enabled(s, r, e, n)
    ensures Step(s, r, e, n).healthy ==
      if r in s.requests && s.requests[r].FastFailed? then false
      else if r in s.requests && s.requests[r].Marking? then true
      else s.healthy
  {
  }

  /** Only a served request moves `active`, to the endpoint that served it, and not if another has moved it away since
      the loop began; a move that fails over is then counted, once. */
  lemma ActiveChangesExactly(s: State, r: nat, e: Event, n: nat)
    requires 0 < n && Enabled(s, r, e, n)
    ensures var s', switching := Step(s, r, e, n), r in s.requests && s.requests[r].Switching?;
      && s'.active == (if switching && (s.requests[r].index == s.requests[r].start || s.active == s.requests[r].start)
                       then s.requests[r].index else s.active)
      && (switching
        ==> (s'.requests[r].Counting?
          <==> s.requests[r].index != s.requests[r].start && s.active == s.requests[r].start))
      && s'.failovers == s.failovers + (if r in s.requests && s.requests[r].Counting? then 1 else 0)
      && (r in s'.requests && s'.requests[r].Counting? ==> switching)
  {
  }

  /** A request takes the fast path exactly if it finds somebody healthy, and sends to the endpoint that it then
      reads. */
  lemma FastExactly(s: State, r: nat, e: Event, n: nat)
    requires 0 < n && Enabled(s, r, e, n) && r in s.requests
    ensures s.requests[r].Started? ==> Step(s, r, e, n).requests[r] == if s.healthy then Fast else Slow(0)
    ensures s.requests[r].Fast? && !e.Cancel? ==> Step(s, r, e, n).requests[r] == FastSend(s.active % n)
    ensures s.requests[r].Probing? && e.Answer? ==>
      var Probing(start, skip, offset) := s.requests[r];
      var index := (start + skip + offset) % n;
      Step(s, r, e, n).requests[r]
        == if e.good then Sending(start, skip, offset, index) else Probing(start, skip, offset + 1)
  {
  }

  /** What counts as an endpoint that has answered, or that may have a payload. */
  lemma RecordsExactly(s: State, r: nat, e: Event, n: nat)
    requires 0 < n && Enabled(s, r, e, n) && r in s.requests
    ensures var s', pc := Step(s, r, e, n), s.requests[r];
      && s'.answered
        == s.answered + (if pc.Probing? && e.Answer? && e.good then {(pc.start + pc.skip + pc.offset) % n} else {})
      && s'.delivered == s.delivered + (if pc.FastSend? || pc.Sending? then {pc.index} else {})
  {
  }
}
