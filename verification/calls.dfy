/** Whole calls: the replies of one call fed, in order, through
    `gather_input` after the reset of `make_ai_call`, and what holds of
    every such sequence — the consent question is asked once, consent is
    logged at most once, and the conversation state only moves forward. */
module Calls {
  import opened Optional
  import opened Conversation

  /** The outcomes of answering `reqs` one after another from `s`. */
  function Run(s: Session, reqs: seq<Request>): (outs: seq<Outcome>)
    ensures |outs| == |reqs|
    decreases |reqs|
  {
    if reqs == [] then []
    else
      var o := GatherInput(s, reqs[0]);
      [o] + Run(o.next, reqs[1..])
  }

  /** The session in force before reply `i` of a run from `s`. */
  function Before(s: Session, outs: seq<Outcome>, i: nat): Session
    requires i <= |outs|
  {
    if i == 0 then s else outs[i - 1].next
  }

  /** A whole call: the reset of `make_ai_call`, then every reply. */
  function Call(name: Option<string>, phone: Option<string>, reqs: seq<Request>): seq<Outcome>
  {
    Run(MakeAiCall(name, phone), reqs)
  }

  /** How many responses ask the consent question. */
  function CountPitches(outs: seq<Outcome>): nat
  {
    if outs == [] then 0
    else (if IsPitch(outs[0].action) then 1 else 0) + CountPitches(outs[1..])
  }

  /** How many consent events are logged. */
  function CountLogs(outs: seq<Outcome>): nat
  {
    if outs == [] then 0
    else (if outs[0].logged.Some? then 1 else 0) + CountLogs(outs[1..])
  }

  /** Some reply in `reqs` is substantive (neither missing, blank nor a
      closing cue). */
  predicate AnySubstantive(reqs: seq<Request>)
  {
    exists i :: 0 <= i < |reqs| && Substantive(reqs[i])
  }

  /** Consent is never on record without the question having been asked:
      this holds of every session a run passes through. */
  lemma {:induction false} RunKeepsInv(s: Session, reqs: seq<Request>)
    requires Inv(s)
    ensures forall i :: 0 <= i < |reqs| ==> Inv(Run(s, reqs)[i].next)
    decreases |reqs|
  {
    if reqs != [] {
      var o := GatherInput(s, reqs[0]);
      var outs := Run(s, reqs);
      var rest := Run(o.next, reqs[1..]);
      assert outs == [o] + rest;
      assert Inv(o.next);
      RunKeepsInv(o.next, reqs[1..]);
      forall i | 0 <= i < |reqs|
        ensures Inv(outs[i].next)
      {
        if i > 0 {
          assert outs[i] == rest[i - 1];
        }
      }
    }
  }

  /** Once asked, the consent question stays asked, and once recorded,
      consent stays recorded: between any two points of a run neither
      `previous_question` nor `sales_contact_requested` goes back. */
  lemma {:induction false} RunMonotone(s: Session, reqs: seq<Request>)
    ensures forall i, j :: 0 <= i <= j <= |reqs| ==>
      (Before(s, Run(s, reqs), i).previousQuestion == SalesContactPermission ==>
       Before(s, Run(s, reqs), j).previousQuestion == SalesContactPermission)
    ensures forall i, j :: 0 <= i <= j <= |reqs| ==>
      (Before(s, Run(s, reqs), i).salesContactRequested ==>
       Before(s, Run(s, reqs), j).salesContactRequested)
    decreases |reqs|
  {
    if reqs != [] {
      var o := GatherInput(s, reqs[0]);
      var outs := Run(s, reqs);
      var rest := Run(o.next, reqs[1..]);
      assert outs == [o] + rest;
      RunMonotone(o.next, reqs[1..]);
      forall k | 1 <= k <= |reqs|
        ensures Before(s, outs, k) == Before(o.next, rest, k - 1)
      {
        if k > 1 {
          assert outs[k - 1] == rest[k - 2];
        }
      }
      forall i, j | 0 <= i <= j <= |reqs|
        ensures Before(s, outs, i).previousQuestion == SalesContactPermission ==>
                Before(s, outs, j).previousQuestion == SalesContactPermission
        ensures Before(s, outs, i).salesContactRequested ==>
                Before(s, outs, j).salesContactRequested
      {
        if 0 < j {
          var i' := if i == 0 then 0 else i - 1;
          assert Before(s, outs, i).previousQuestion == SalesContactPermission ==>
                 Before(o.next, rest, i').previousQuestion == SalesContactPermission;
          assert Before(s, outs, i).salesContactRequested ==>
                 Before(o.next, rest, i').salesContactRequested;
        }
      }
    }
  }

  /** The consent question is asked on exactly one reply when none was
      asked before and some reply is substantive, and on none otherwise. */
  lemma {:induction false} PitchCount(s: Session, reqs: seq<Request>)
    ensures s.previousQuestion == SalesContactPermission ==> CountPitches(Run(s, reqs)) == 0
    ensures s.previousQuestion == NoQuestion ==>
      CountPitches(Run(s, reqs)) == (if AnySubstantive(reqs) then 1 else 0)
    decreases |reqs|
  {
    if reqs != [] {
      var o := GatherInput(s, reqs[0]);
      var outs := Run(s, reqs);
      assert outs[1..] == Run(o.next, reqs[1..]);
      PitchCount(o.next, reqs[1..]);
      assert AnySubstantive(reqs) <==> Substantive(reqs[0]) || AnySubstantive(reqs[1..]) by {
        if AnySubstantive(reqs) && !Substantive(reqs[0]) {
          var i :| 0 <= i < |reqs| && Substantive(reqs[i]);
          assert reqs[1..][i - 1] == reqs[i];
        }
        if AnySubstantive(reqs[1..]) {
          var i :| 0 <= i < |reqs| - 1 && Substantive(reqs[1..][i]);
          assert reqs[i + 1] == reqs[1..][i];
        }
      }
    }
  }

  /** While every reply leaves the session as it was, each is answered
      from the starting session, and so is the reply after them. */
  lemma {:induction false} StillPrefix(s: Session, reqs: seq<Request>, i: nat)
    requires i <= |reqs|
    requires forall j :: 0 <= j < i ==> GatherInput(s, reqs[j]).next == s
    ensures forall j :: 0 <= j < i ==> Run(s, reqs)[j] == GatherInput(s, reqs[j])
    ensures i < |reqs| ==> Run(s, reqs)[i] == GatherInput(s, reqs[i])
    decreases i
  {
    if reqs != [] {
      var o := GatherInput(s, reqs[0]);
      var outs := Run(s, reqs);
      var rest := Run(o.next, reqs[1..]);
      assert outs == [o] + rest;
      if i > 0 {
        forall j | 0 <= j < i - 1
          ensures GatherInput(s, reqs[1..][j]).next == s
        {
          assert reqs[1..][j] == reqs[j + 1];
        }
        StillPrefix(s, reqs[1..], i - 1);
        forall j | 1 <= j <= i && j < |reqs|
          ensures outs[j] == GatherInput(s, reqs[j])
        {
          assert outs[j] == rest[j - 1];
          assert reqs[1..][j - 1] == reqs[j];
        }
      }
    }
  }

  /** The consent question falls on the first substantive reply: every
      reply before it leaves the session as it was, and that reply gets
      the sales response with the question appended. */
  lemma FirstSubstantiveIsPitched(s: Session, reqs: seq<Request>, i: nat)
    requires s.previousQuestion == NoQuestion
    requires i < |reqs| && Substantive(reqs[i])
    requires forall j :: 0 <= j < i ==> !Substantive(reqs[j])
    ensures forall j :: 0 <= j < i ==> Run(s, reqs)[j].next == s
    ensures IsPitch(Run(s, reqs)[i].action)
  {
    StillPrefix(s, reqs, i);
  }

  /** At most one consent event per run, and none once consent is on
      record. */
  lemma {:induction false} LogCount(s: Session, reqs: seq<Request>)
    ensures CountLogs(Run(s, reqs)) <= (if s.salesContactRequested then 0 else 1)
    decreases |reqs|
  {
    if reqs != [] {
      var o := GatherInput(s, reqs[0]);
      assert Run(s, reqs)[1..] == Run(o.next, reqs[1..]);
      LogCount(o.next, reqs[1..]);
    }
  }

  /** While consent is awaited, every reply that is not an affirmative
      answer (a decline, a closing cue, silence) leaves the session as it
      was, so the next reply is again read as the consent answer; the
      first affirmative substantive reply is the one that is logged. */
  lemma ConsentAwaited(s: Session, reqs: seq<Request>, i: nat)
    requires s.previousQuestion == SalesContactPermission && !s.salesContactRequested
    requires i < |reqs|
    requires forall j :: 0 <= j < i ==>
      !(Substantive(reqs[j]) && IsAffirmative(Speech(reqs[j])))
    ensures forall j :: 0 <= j < i ==> Run(s, reqs)[j].next == s && Run(s, reqs)[j].logged.None?
    ensures Run(s, reqs)[i].logged.Some? <==>
      Substantive(reqs[i]) && IsAffirmative(Speech(reqs[i]))
  {
    StillPrefix(s, reqs, i);
  }

  /** Replies that reach the controller before any call was placed start
      from the process's initial globals, and the invariant holds after
      each of them too. */
  lemma BeforeFirstCall(reqs: seq<Request>)
    ensures forall i :: 0 <= i < |reqs| ==> Inv(Run(StartupSession, reqs)[i].next)
  {
    RunKeepsInv(StartupSession, reqs);
  }

  /** Over a whole call: every session satisfies the invariant, the
      consent question is asked exactly once if the caller ever says
      something substantive (and never otherwise), and consent is logged at
      most once. */
  lemma CallProperties(name: Option<string>, phone: Option<string>, reqs: seq<Request>)
    ensures forall i :: 0 <= i < |reqs| ==> Inv(Call(name, phone, reqs)[i].next)
    ensures CountPitches(Call(name, phone, reqs)) == (if AnySubstantive(reqs) then 1 else 0)
    ensures CountLogs(Call(name, phone, reqs)) <= 1
  {
    RunKeepsInv(MakeAiCall(name, phone), reqs);
    PitchCount(MakeAiCall(name, phone), reqs);
    LogCount(MakeAiCall(name, phone), reqs);
  }
}
