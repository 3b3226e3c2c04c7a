/** Which packets a flow takes for answers, and how long each took. */
module Responses {
  import opened Common
  import opened Words
  import opened FlowSpec
  import opened Tiering
  import Layout

  /** The latest of the first `n` packets that has a direction. */
  function LatestDirected(trace: seq<Event>, n: nat): (k: Option<nat>)
    requires n <= |trace|
    ensures k.Some? ==> k.value < n && trace[k.value].packet.dir != Unknown
    ensures k.Some? ==> forall j :: k.value < j < n ==> trace[j].packet.dir == Unknown
    ensures k.None? ==> forall j :: 0 <= j < n ==> trace[j].packet.dir == Unknown
  {
    if n == 0 then None
    else if trace[n - 1].packet.dir != Unknown then Some(n - 1)
    else LatestDirected(trace, n - 1)
  }

  /** A backward packet answers if the packet before it was a forward one, undirected packets aside. */
  predicate Answers(trace: seq<Event>, k: nat)
    requires k < |trace|
  {
    trace[k].packet.dir == Bwd && LatestDirected(trace, k).Some? && trace[LatestDirected(trace, k).value].packet.dir == Fwd
  }

  function Delay(trace: seq<Event>, k: nat): int
    requires k < |trace| && Answers(trace, k)
  {
    Sub64(trace[k].packet.ts, trace[LatestDirected(trace, k).value].packet.ts)
  }

  /** The delays of all answers among the first `n` packets, in order. */
  function Delays(trace: seq<Event>, n: nat): seq<int>
    requires n <= |trace|
  {
    if n == 0 then []
    else if Answers(trace, n - 1) then Delays(trace, n - 1) + [Delay(trace, n - 1)]
    else Delays(trace, n - 1)
  }

  /** When the latest directed packet was sent, if that was a request; 0 if it was not. */
  function OpenRequest(trace: seq<Event>, n: nat): nat
    requires n <= |trace|
  {
    match LatestDirected(trace, n)
    case Some(k) => if trace[k].packet.dir == Fwd then trace[k].packet.ts else 0
    case None => 0
  }

  /** The first 1000 delays are kept, and an open request is remembered. */
  predicate Answered(r: Response, trace: seq<Event>, n: nat)
    requires n <= |trace|
  {
    var delays := Delays(trace, n);
    r.delays == delays[..Min(|delays|, RESP_CAPACITY)] && r.lastReq == OpenRequest(trace, n)
  }

  /** Each answer is paired with the latest request before it, and the flow keeps the first 1000 delays;
      its open request is the latest directed packet, if that was a request. */
  lemma {:induction false} ResponsesAnswerLatestRequest(cfg: Config, start: Layout.Level, trace: seq<Event>, n: nat)
    requires cfg.response && Timed(trace) && n <= |trace|
    ensures Answered(Run(cfg, start, trace[..n]).resp, trace, n)
  {
    if n > 0 {
      hide *;
      ResponsesAnswerLatestRequest(cfg, start, trace, n - 1);
      ResponseAfter(cfg, start, trace, n - 1);
      StepAnswers(Run(cfg, start, trace[..n - 1]).resp, trace, n - 1);
    }
  }

  lemma StepAnswers(r: Response, trace: seq<Event>, n: nat)
    requires n < |trace| && Timed(trace) && Answered(r, trace, n)
    ensures Answered(ResponseStep(r, RESP_CAPACITY, trace[n].packet.dir, trace[n].packet.ts), trace, n + 1)
  {
    OpenIfPositive(trace, n);
    hide Timed, Sub64;
  }

  /** As no packet has the time 0, a request is open exactly if that time is positive. */
  lemma OpenIfPositive(trace: seq<Event>, n: nat)
    requires n <= |trace| && Timed(trace)
    ensures var k := LatestDirected(trace, n);
            OpenRequest(trace, n) > 0 <==> k.Some? && trace[k.value].packet.dir == Fwd
  {
    var k := LatestDirected(trace, n);
    assert k.Some? ==> trace[k.value] in trace;
  }

  lemma ResponseAfter(cfg: Config, start: Layout.Level, trace: seq<Event>, n: nat)
    requires cfg.response && n < |trace|
    ensures var p := trace[n].packet;
            Run(cfg, start, trace[..n + 1]).resp == ResponseStep(Run(cfg, start, trace[..n]).resp, RESP_CAPACITY, p.dir, p.ts)
  {
    assert trace[..n + 1][..n] == trace[..n];
  }

  // --- The answers of a flow ---

  /** Only undirected packets lie between packets `j` and `k`. */
  predicate Adjacent(trace: seq<Event>, j: nat, k: nat)
    requires j < k < |trace|
  {
    forall m: nat :: j < m < k ==> trace[m].packet.dir == Unknown
  }

  /** The packets that are answers, in order. */
  function AnswersAt(trace: seq<Event>, n: nat): (a: seq<nat>)
    requires n <= |trace|
    ensures forall k :: 0 <= k < |a| ==> a[k] < n
  {
    if n == 0 then []
    else if Answers(trace, n - 1) then AnswersAt(trace, n - 1) + [n - 1] else AnswersAt(trace, n - 1)
  }

  lemma AnswerFollows(trace: seq<Event>, k: nat)
    requires k < |trace|
    ensures Answers(trace, k) <==> trace[k].packet.dir == Bwd
                                   && exists j: nat :: j < k && trace[j].packet.dir == Fwd && Adjacent(trace, j, k)
    ensures forall j: nat :: j < k && trace[j].packet.dir == Fwd && Adjacent(trace, j, k) ==>
              LatestDirected(trace, k) == Some(j)
  {
    if LatestDirected(trace, k).Some? {
      assert Adjacent(trace, LatestDirected(trace, k).value, k);
    }
  }

  /** They are the backward packets with a forward one before them, undirected packets aside. */
  lemma {:induction false} AnswersSelect(trace: seq<Event>, n: nat)
    requires n <= |trace|
    ensures var a := AnswersAt(trace, n);
            && (forall k, l :: 0 <= k < l < |a| ==> a[k] < a[l])
            && (forall k: nat :: k in a <==>
                  k < n && trace[k].packet.dir == Bwd
                  && exists j: nat :: j < k && trace[j].packet.dir == Fwd && Adjacent(trace, j, k))
  {
    AnswersPicked(trace, n);
    hide AnswersAt;
    forall k: nat
      ensures k in AnswersAt(trace, n) <==>
              k < n && trace[k].packet.dir == Bwd
              && exists j: nat :: j < k && trace[j].packet.dir == Fwd && Adjacent(trace, j, k)
    {
      if k < n {
        AnswerFollows(trace, k);
      }
    }
  }

  lemma {:induction false} AnswersPicked(trace: seq<Event>, n: nat)
    requires n <= |trace|
    ensures var a := AnswersAt(trace, n);
            && (forall k, l :: 0 <= k < l < |a| ==> a[k] < a[l])
            && (forall k: nat :: k in a <==> k < n && Answers(trace, k))
  {
    if n > 0 {
      hide Answers;
      AnswersPicked(trace, n - 1);
      var before, a := AnswersAt(trace, n - 1), AnswersAt(trace, n);
      assert a == if Answers(trace, n - 1) then before + [n - 1] else before;
      hide AnswersAt;
      forall k: nat ensures k in a <==> k < n && Answers(trace, k) {
        assert k in a <==> k in before || (k == n - 1 && Answers(trace, k));
      }
    }
  }

  lemma {:induction false} DelaysOfAnswers(trace: seq<Event>, n: nat)
    requires n <= |trace|
    ensures var a, delays := AnswersAt(trace, n), Delays(trace, n);
            && |delays| == |a|
            && forall m: nat :: m < |a| ==> Answers(trace, a[m]) && delays[m] == Delay(trace, a[m])
  {
    if n > 0 {
      DelaysOfAnswers(trace, n - 1);
      hide Answers, Delay;
    }
  }

  /** Whichever allocations fail, a flow keeps the first 1000 delays: each is the time from the forward
      packet that an answer follows to the answer. */
  lemma FlowResponses(cfg: Config, start: Layout.Level, trace: seq<Event>)
    requires cfg.response && Timed(trace)
    ensures var a, delays := AnswersAt(trace, |trace|), Run(cfg, start, trace).resp.delays;
            && |delays| == Min(|a|, 1000)
            && forall m: nat, j: nat :: m < |delays| && j < a[m] && trace[j].packet.dir == Fwd && Adjacent(trace, j, a[m]) ==>
                 delays[m] == (trace[a[m]].packet.ts as int - trace[j].packet.ts as int) % 0x1_0000_0000_0000_0000
  {
    hide *;
    var a, r := AnswersAt(trace, |trace|), Run(cfg, start, trace).resp;
    assert trace[..|trace|] == trace;
    ResponsesAnswerLatestRequest(cfg, start, trace, |trace|);
    KeptDelays(r, trace);
    forall m: nat, j: nat | m < |r.delays| && j < a[m] && trace[j].packet.dir == Fwd && Adjacent(trace, j, a[m])
      ensures r.delays[m] == (trace[a[m]].packet.ts as int - trace[j].packet.ts as int) % 0x1_0000_0000_0000_0000
    {
      AnswerFollows(trace, a[m]);
      DelayIs(trace, a[m], j);
    }
  }

  lemma KeptDelays(r: Response, trace: seq<Event>)
    requires Answered(r, trace, |trace|)
    ensures var a := AnswersAt(trace, |trace|);
            && |r.delays| == Min(|a|, 1000)
            && forall m: nat :: m < |r.delays| ==> Answers(trace, a[m]) && r.delays[m] == Delay(trace, a[m])
  {
    DelaysOfAnswers(trace, |trace|);
    hide AnswersAt, Answers, Delay, Delays, OpenRequest;
  }

  lemma DelayIs(trace: seq<Event>, k: nat, j: nat)
    requires k < |trace| && Answers(trace, k) && LatestDirected(trace, k) == Some(j)
    ensures j < k && Delay(trace, k) == (trace[k].packet.ts as int - trace[j].packet.ts as int) % 0x1_0000_0000_0000_0000
  {
  }
}
