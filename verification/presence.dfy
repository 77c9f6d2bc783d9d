/** How the server's roster and a page's user list relate, and how one call
    request travels caller -> server -> callee -> server -> caller. */
module Presence {
  import opened Results
  import opened Seqs
  import opened Signaling
  import Client

  /** The event the server sees when page `self` emits `out`. */
  function ToServer(self: Id, out: Client.Outbound): Incoming {
    match out
    case SendMakeAnswer(answer, to) => MakeAnswer(self, MakeAnswerData(Some(answer), Some(to)))
    case SendRejectCall(from) => RejectCall(self, RejectCallData(Some(from)))
  }

  /** One server step keeps page `c`'s list equal to the roster without `c`,
      provided `c` stays connected. */
  lemma MirrorStep(R: seq<Id>, c: Id, e: Incoming)
    requires NoDup(R) && c in R
    requires e != Disconnect(c)
    ensures c in Apply(R, e).roster
    ensures Client.ShowAll(Without(R, c), Received(Apply(R, e).emitted, c))
      == Without(Apply(R, e).roster, c)
  {
    match e
    case Connect(x) => MirrorConnect(R, c, x);
    case Disconnect(x) => MirrorDisconnect(R, c, x);
    case _ => MirrorForward(R, c, e);
  }

  lemma MirrorConnect(R: seq<Id>, c: Id, x: Id)
    requires NoDup(R) && c in R
    ensures c in Apply(R, Connect(x)).roster
    ensures Client.ShowAll(Without(R, c), Received(Apply(R, Connect(x)).emitted, c))
      == Without(Apply(R, Connect(x)).roster, c)
  {
    var o := Apply(R, Connect(x));
    var W := Without(R, c);
    if x !in R {
      assert Received(o.emitted, c) == [UpdateUserList([x])];
      assert x !in W;
      Client.UpdateFresh(W, [x]);
      WithoutAppend(R, x, c);
      assert Client.ShowAll(W, [UpdateUserList([x])]) == Client.ShowAll(W + [x], []);
    }
  }

  lemma MirrorDisconnect(R: seq<Id>, c: Id, x: Id)
    requires NoDup(R) && c in R && x != c
    ensures c in Apply(R, Disconnect(x)).roster
    ensures Client.ShowAll(Without(R, c), Received(Apply(R, Disconnect(x)).emitted, c))
      == Without(Apply(R, Disconnect(x)).roster, c)
  {
    if x in R {
      var W := Without(R, c);
      var em := Emission(RemoveUser(x), Everyone);
      assert Apply(R, Disconnect(x)) == Outcome(RemoveFirst(R, x), [em]);
      RemoveFirstMembers(R, x);
      ReceivedOne(em, c);
      Client.ShowOne(W, RemoveUser(x));
      WithoutRemoveFirst(R, x, c);
    }
  }

  lemma MirrorForward(R: seq<Id>, c: Id, e: Incoming)
    requires NoDup(R) && c in R
    requires e.CallUser? || e.MakeAnswer? || e.RejectCall?
    ensures c in Apply(R, e).roster
    ensures Client.ShowAll(Without(R, c), Received(Apply(R, e).emitted, c))
      == Without(Apply(R, e).roster, c)
  {
    var r := match e
      case CallUser(sid, data) => OnCallUser(sid, data)
      case MakeAnswer(sid, data) => OnMakeAnswer(sid, data)
      case RejectCall(sid, data) => OnRejectCall(sid, data);
    assert Step(R, e) == Forwarded(R, r);
    if r.Ok? {
      assert !r.value.msg.UpdateUserList? && !r.value.msg.RemoveUser?;
      ReceivedOne(r.value, c);
      Client.ShowOne(Without(R, c), r.value.msg);
    }
  }

  /** A page that connects to a server with roster `r0` and stays connected
      through the events `t` shows exactly the other connected ids, in the
      server's order, once it has processed everything it was sent. */
  lemma {:induction false} MirrorFollowsRoster(r0: seq<Id>, c: Id, t: seq<Incoming>)
    requires NoDup(r0) && c !in r0
    requires forall i :: 0 <= i < |t| ==> t[i] != Disconnect(c)
    ensures c in Run(r0, [Connect(c)] + t).roster
    ensures Client.ShowAll([], Received(Run(r0, [Connect(c)] + t).emitted, c))
      == Without(Run(r0, [Connect(c)] + t).roster, c)
    decreases |t|
  {
    var u := [Connect(c)] + t;
    if t == [] {
      var o := Run(r0, u);
      assert u[..|u| - 1] == [];
      var first := Apply(r0, Connect(c));
      assert first.emitted == [Emission(UpdateUserList(r0), To(c)), Emission(UpdateUserList([c]), SkipSid(c))];
      assert u[|u| - 1] == Connect(c);
      assert Run(r0, u[..|u| - 1]) == Outcome(r0, []);
      assert o == Outcome(first.roster, [] + first.emitted);
      assert [] + first.emitted == first.emitted;
      assert Received(o.emitted, c) == [UpdateUserList(r0)];
      assert Client.ShowAll([], [UpdateUserList(r0)]) == Client.ShowAll(Client.UpdateUserList([], r0), []);
      Client.UpdateFresh([], r0);
      WithoutAppend(r0, c, c);
      WithoutAbsent(r0, c);
    } else {
      var p := t[..|t| - 1];
      assert u[..|u| - 1] == [Connect(c)] + p;
      assert u[|u| - 1] == t[|t| - 1];
      MirrorFollowsRoster(r0, c, p);
      var before := Run(r0, [Connect(c)] + p);
      var step := Apply(before.roster, t[|t| - 1]);
      assert Run(r0, u) == Outcome(step.roster, before.emitted + step.emitted);
      ReceivedAppend(before.emitted, step.emitted, c);
      Client.ShowAllAppend([], Received(before.emitted, c), Received(step.emitted, c));
      MirrorStep(before.roster, c, t[|t| - 1]);
    }
  }

  /** The events a page emits among its actions, in order. */
  function Sent(acts: seq<Client.Action>): seq<Client.Outbound>
    decreases |acts|
  {
    if acts == [] then []
    else (if acts[0].Send? then [acts[0].out] else []) + Sent(acts[1..])
  }

  /** What `b`'s page emits in reply to one `call-made` from `a`. */
  function Replies(s: Client.ClientState, a: Id, offer: Description, env: Client.Env): seq<Client.Outbound> {
    Sent(Client.Step(s, Client.Input(Client.FromServer(CallMade(offer, a)), env)).actions)
  }

  /** A client `a` that emits `call-user` to `b` reaches `b` with `call-made`.
      `b`'s page replies with at most one event: `reject-call` when it was
      asked and declined, `make-answer` with its answer when it produced one,
      nothing when its awaits rejected. The server passes that reply back to
      `a` alone, as `call-rejected` or `answer-made`. */
  lemma CallRoundTrip(R: seq<Id>, a: Id, b: Id, offer: Description, s: Client.ClientState, env: Client.Env)
    ensures forall c ::
              Received(Apply(R, CallUser(a, CallUserData(Some(offer), Some(b)))).emitted, c)
              == Addressed(c, b, CallMade(offer, a))
    ensures s.getCalled && !env.confirmed ==>
      Replies(s, a, offer, env) == [Client.SendRejectCall(a)]
    ensures !(s.getCalled && !env.confirmed) && env.answer.Some? ==>
      Replies(s, a, offer, env) == [Client.SendMakeAnswer(env.answer.value, a)]
    ensures !(s.getCalled && !env.confirmed) && env.answer.None? ==>
      Replies(s, a, offer, env) == []
    ensures forall o, c :: o in Replies(s, a, offer, env) ==>
              Received(Apply(R, ToServer(b, o)).emitted, c)
              == Addressed(c, a, if o.SendRejectCall? then CallRejected(b) else AnswerMade(b, o.answer))
  {
    CallDelivered(R, a, b, offer);
    CalleeReplies(s, a, offer, env);
    forall o, c | o in Replies(s, a, offer, env)
      ensures Received(Apply(R, ToServer(b, o)).emitted, c)
              == Addressed(c, a, if o.SendRejectCall? then CallRejected(b) else AnswerMade(b, o.answer))
    {
      if o.SendRejectCall? {
        RejectDelivered(R, a, b);
      } else {
        AnswerDelivered(R, a, b, o.answer);
      }
    }
  }

  /** The server forwards `call-user` to `b` alone. */
  lemma CallDelivered(R: seq<Id>, a: Id, b: Id, offer: Description)
    ensures forall c ::
              Received(Apply(R, CallUser(a, CallUserData(Some(offer), Some(b)))).emitted, c)
              == Addressed(c, b, CallMade(offer, a))
  {
    var r := OnCallUser(a, CallUserData(Some(offer), Some(b)));
    assert Apply(R, CallUser(a, CallUserData(Some(offer), Some(b)))) == Outcome(R, [r.value]);
  }

  /** The server forwards `b`'s `reject-call` to `a` alone. */
  lemma RejectDelivered(R: seq<Id>, a: Id, b: Id)
    ensures forall c ::
              Received(Apply(R, ToServer(b, Client.SendRejectCall(a))).emitted, c)
              == Addressed(c, a, CallRejected(b))
  {
    var r := OnRejectCall(b, RejectCallData(Some(a)));
    assert Apply(R, ToServer(b, Client.SendRejectCall(a))) == Outcome(R, [r.value]);
  }

  /** The server forwards `b`'s `make-answer` to `a` alone. */
  lemma AnswerDelivered(R: seq<Id>, a: Id, b: Id, answer: Description)
    ensures forall c ::
              Received(Apply(R, ToServer(b, Client.SendMakeAnswer(answer, a))).emitted, c)
              == Addressed(c, a, AnswerMade(b, answer))
  {
    var r := OnMakeAnswer(b, MakeAnswerData(Some(answer), Some(a)));
    assert Apply(R, ToServer(b, Client.SendMakeAnswer(answer, a))) == Outcome(R, [r.value]);
  }

  /** `b`'s reply in each case of `call-made`. */
  lemma CalleeReplies(s: Client.ClientState, a: Id, offer: Description, env: Client.Env)
    ensures s.getCalled && !env.confirmed ==>
      Replies(s, a, offer, env) == [Client.SendRejectCall(a)]
    ensures !(s.getCalled && !env.confirmed) && env.answer.Some? ==>
      Replies(s, a, offer, env) == [Client.SendMakeAnswer(env.answer.value, a)]
    ensures !(s.getCalled && !env.confirmed) && env.answer.None? ==>
      Replies(s, a, offer, env) == []
  {
    var acts := Client.OnCallMade(s, a, env).actions;
    assert Client.Step(s, Client.Input(Client.FromServer(CallMade(offer, a)), env)).actions == acts;
    if s.getCalled && !env.confirmed {
      SentTwo(Client.Ask(a), Client.Send(Client.SendRejectCall(a)));
    } else if s.getCalled {
      if env.answer.Some? {
        SentTwo(Client.Ask(a), Client.Send(Client.SendMakeAnswer(env.answer.value, a)));
      } else {
        SentOne(Client.Ask(a));
      }
    } else if env.answer.Some? {
      SentOne(Client.Send(Client.SendMakeAnswer(env.answer.value, a)));
    }
  }

  /** The events among one or two actions. */
  lemma SentOne(x: Client.Action)
    ensures Sent([x]) == if x.Send? then [x.out] else []
  {
    assert [x][1..] == [];
  }

  lemma SentTwo(x: Client.Action, y: Client.Action)
    ensures Sent([x, y]) == Sent([x]) + Sent([y])
  {
    assert [x, y][1..] == [y];
    SentOne(x);
    SentOne(y);
  }
}
