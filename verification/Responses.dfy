/** Matching of responses: the listener offers a response to one queue after another and
    stops at the first that has a message for it. */
module Responses {
  import opened Bytes
  import opened Messages

  // One response, offered to the queues in index order.
  function Respond(qs: seq<seq<Msg>>, response: nat): (r: seq<seq<Msg>>)
    ensures |r| == |qs|
  {
    if qs == [] then []
    else if FirstMatch(qs[0], response).Some? then [Marked(qs[0], response)] + qs[1..]
    else [qs[0]] + Respond(qs[1..], response)
  }

  function RespondTimes(qs: seq<seq<Msg>>, response: nat, k: nat): (r: seq<seq<Msg>>)
    ensures |r| == |qs|
  {
    if k == 0 then qs else Respond(RespondTimes(qs, response, k - 1), response)
  }

  // All messages in the order of queue index, then position.
  function Flat(qs: seq<seq<Msg>>): seq<Msg> {
    if qs == [] then [] else qs[0] + Flat(qs[1..])
  }

  // The reference: of the messages that wait for the response, the first k are finished.
  function FinishFirst(ms: seq<Msg>, response: nat, k: nat): (r: seq<Msg>)
    ensures |r| == |ms|
  {
    if ms == [] || k == 0 then ms
    else if ms[0].Answers(response) then [ms[0].(finished := true)] + FinishFirst(ms[1..], response, k - 1)
    else [ms[0]] + FinishFirst(ms[1..], response, k)
  }

  // How many messages wait for a response.
  function Waiters(ms: seq<Msg>, response: nat): nat {
    if ms == [] then 0 else (if ms[0].Answers(response) then 1 else 0) + Waiters(ms[1..], response)
  }

  // Marking goes along the messages until one waits for the response.
  lemma {:induction false} MarkedCons(m: Msg, rest: seq<Msg>, response: nat)
    ensures Marked([m] + rest, response)
            == if m.Answers(response) then [m.(finished := true)] + rest else [m] + Marked(rest, response)
  {
    var ms := [m] + rest;
    assert ms[0] == m && ms[1..] == rest;
    if !m.Answers(response) && FirstMatch(rest, response).Some? {
      var p := FirstMatch(rest, response).value;
      assert ms[p + 1 := rest[p].(finished := true)] == [m] + rest[p := rest[p].(finished := true)];
    }
  }

  lemma {:induction false} MarkedAppend(a: seq<Msg>, b: seq<Msg>, response: nat)
    ensures Marked(a + b, response)
            == if FirstMatch(a, response).Some? then Marked(a, response) + b else a + Marked(b, response)
  {
    hide Marked;
    if a == [] {
      assert a + b == b && a + Marked(b, response) == Marked(b, response);
    } else {
      var x, rest := a[0], a[1..];
      MarkedAppend(rest, b, response);
      assert a == [x] + rest;
      MarkedCons(x, rest, response);
      Assoc([x], rest, b);
      MarkedCons(x, rest + b, response);
      Assoc([x.(finished := true)], rest, b);
      Assoc([x], Marked(rest, response), b);
      Assoc([x], rest, Marked(b, response));
    }
  }

  /** A response finishes at most one message: the first in the order of the queues that
      waits for it. */
  lemma {:induction false} RespondIsMarked(qs: seq<seq<Msg>>, response: nat)
    ensures Flat(Respond(qs, response)) == Marked(Flat(qs), response)
  {
    hide Marked;
    if qs != [] {
      RespondIsMarked(qs[1..], response);
      MarkedAppend(qs[0], Flat(qs[1..]), response);
      var r := Respond(qs, response);
      assert r == [r[0]] + r[1..];
    }
  }

  /** Over the queues: exactly one message changes, if any, the first in the order of the queues
      and then of their messages that was sent, is not finished and has the identity of the
      response. */
  lemma {:induction false} RespondIsByIdentity(qs: seq<seq<Msg>>, response: nat, q: nat, k: nat)
    requires q < |qs| && k < |qs[q]|
    ensures |Respond(qs, response)[q]| == |qs[q]|
    ensures var waits := qs[q][k].inProcess && !qs[q][k].finished && qs[q][k].identity == response;
            var first := forall p, j | 0 <= p <= q && 0 <= j < |qs[p]| && (p < q || j < k) ::
                           !(qs[p][j].inProcess && !qs[p][j].finished && qs[p][j].identity == response);
            Respond(qs, response)[q][k] == if waits && first then qs[q][k].(finished := true) else qs[q][k]
  {
    hide Marked;
    var head := FirstMatch(qs[0], response);
    if head.Some? {
      var w := qs[0][head.value];
      assert w.inProcess && !w.finished && w.identity == response;
      if q == 0 {
        MarkedIsByIdentity(qs[0], response, k);
      }
    } else {
      NobodyAnswers(qs[0], response);
      if q > 0 {
        RespondIsByIdentity(qs[1..], response, q - 1, k);
        FirstOfTheRest(qs, response, q, k);
      }
    }
  }

  lemma {:induction false} NobodyAnswers(ms: seq<Msg>, response: nat)
    requires FirstMatch(ms, response).None?
    ensures forall j | 0 <= j < |ms| :: !(ms[j].inProcess && !ms[j].finished && ms[j].identity == response)
  {
    forall j | 0 <= j < |ms|
      ensures !(ms[j].inProcess && !ms[j].finished && ms[j].identity == response)
    {
      assert !ms[j].Answers(response);
    }
  }

  // Where the first queue has nobody waiting, first of all is first of the rest.
  lemma {:induction false} FirstOfTheRest(qs: seq<seq<Msg>>, response: nat, q: nat, k: nat)
    requires 0 < q < |qs| && k < |qs[q]|
    requires forall j | 0 <= j < |qs[0]| ::
               !(qs[0][j].inProcess && !qs[0][j].finished && qs[0][j].identity == response)
    ensures (forall p, j | 0 <= p <= q && 0 <= j < |qs[p]| && (p < q || j < k) ::
               !(qs[p][j].inProcess && !qs[p][j].finished && qs[p][j].identity == response))
            <==>
            (forall p, j | 0 <= p <= q - 1 && 0 <= j < |qs[1..][p]| && (p < q - 1 || j < k) ::
               !(qs[1..][p][j].inProcess && !qs[1..][p][j].finished && qs[1..][p][j].identity == response))
  {
    var rest := qs[1..];
    assert forall p | 0 < p < |qs| :: qs[p] == rest[p - 1];
    assert forall p | 0 <= p < |rest| :: rest[p] == qs[p + 1];
  }

  /** A response whose identity no sent and unfinished message has changes nothing. */
  lemma {:induction false} StrangerChangesNothing(qs: seq<seq<Msg>>, response: nat)
    requires forall q, k | 0 <= q < |qs| && 0 <= k < |qs[q]| ::
               !(qs[q][k].inProcess && !qs[q][k].finished && qs[q][k].identity == response)
    ensures Respond(qs, response) == qs
  {
    forall q | 0 <= q < |qs|
      ensures FirstMatch(qs[q], response).None?
    {
      assert forall k | 0 <= k < |qs[q]| :: !qs[q][k].Answers(response);
    }
    RespondAt(qs, response, |qs|);
  }

  /** An unmatched response changes nothing. */
  lemma {:induction false} UnmatchedChangesNothing(qs: seq<seq<Msg>>, response: nat)
    requires Waiters(Flat(qs), response) == 0
    ensures Respond(qs, response) == qs
  {
    if qs != [] {
      WaitersAppend(qs[0], Flat(qs[1..]), response);
      NoWaiters(qs[0], response);
      UnmatchedChangesNothing(qs[1..], response);
    }
  }

  lemma {:induction false} WaitersAppend(a: seq<Msg>, b: seq<Msg>, response: nat)
    ensures Waiters(a + b, response) == Waiters(a, response) + Waiters(b, response)
  {
    if a == [] {
      assert a + b == b;
    } else {
      WaitersAppend(a[1..], b, response);
      assert (a + b)[0] == a[0] && (a + b)[1..] == a[1..] + b;
    }
  }

  lemma {:induction false} NoWaiters(ms: seq<Msg>, response: nat)
    ensures Waiters(ms, response) == 0 <==> FirstMatch(ms, response).None?
  {
    if ms != [] {
      NoWaiters(ms[1..], response);
    }
  }

  // Finishing one more is marking once more.
  lemma {:induction false} FinishOneMore(ms: seq<Msg>, response: nat, k: nat)
    ensures Marked(FinishFirst(ms, response, k), response) == FinishFirst(ms, response, k + 1)
  {
    hide Marked;
    hide FirstMatch;
    if ms == [] {
      Nothing(response);
    } else {
      var x, rest := ms[0], ms[1..];
      assert ms == [x] + rest;
      assert FinishFirst(rest, response, 0) == rest;
      if x.Answers(response) {
        if k > 0 {
          FinishOneMore(rest, response, k - 1);
          MarkedCons(x.(finished := true), FinishFirst(rest, response, k - 1), response);
        } else {
          MarkedCons(x, rest, response);
        }
      } else {
        FinishOneMore(rest, response, k);
        MarkedCons(x, FinishFirst(rest, response, k), response);
      }
    }
  }

  lemma {:induction false} Nothing(response: nat)
    ensures Marked([], response) == []
  {
  }

  /** k responses with one identity finish exactly the first k messages that wait for it, in
      the order of queue index and position. */
  lemma {:induction false} ResponsesFinishTheFirst(qs: seq<seq<Msg>>, response: nat, k: nat)
    ensures Flat(RespondTimes(qs, response, k)) == FinishFirst(Flat(qs), response, k)
  {
    hide Marked;
    hide FirstMatch;
    hide Respond;
    if k > 0 {
      ResponsesFinishTheFirst(qs, response, k - 1);
      RespondIsMarked(RespondTimes(qs, response, k - 1), response);
      FinishOneMore(Flat(qs), response, k - 1);
    }
  }

  /** So k responses answer k messages, as long as there are so many. */
  lemma {:induction false} ResponsesAreUsedUp(ms: seq<Msg>, response: nat, k: nat)
    ensures Waiters(FinishFirst(ms, response, k), response)
            == if k <= Waiters(ms, response) then Waiters(ms, response) - k else 0
  {
    if ms != [] && k > 0 {
      ResponsesAreUsedUp(ms[1..], response, if ms[0].Answers(response) then k - 1 else k);
      var r := FinishFirst(ms, response, k);
      assert r == [r[0]] + r[1..];
    }
  }

  // Where a response ends up.
  lemma {:induction false} RespondAt(qs: seq<seq<Msg>>, response: nat, q: nat)
    requires q <= |qs| && forall j | 0 <= j < q :: FirstMatch(qs[j], response).None?
    ensures q == |qs| ==> Respond(qs, response) == qs
    ensures q < |qs| && FirstMatch(qs[q], response).Some? ==> Respond(qs, response) == qs[q := Marked(qs[q], response)]
  {
    hide Marked;
    if qs != [] {
      if q == 0 {
        assert FirstMatch(qs[0], response).Some? ==>
            [Marked(qs[0], response)] + qs[1..] == qs[0 := Marked(qs[0], response)];
      } else {
        RespondAt(qs[1..], response, q - 1);
        assert q < |qs| ==> [qs[0]] + qs[1..][q - 1 := Marked(qs[q], response)] == qs[q := Marked(qs[q], response)];
      }
    }
  }
}
