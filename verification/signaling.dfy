/** The socket.io handlers of the server: the roster of connected clients
    (`existingSockets`) and the forwarding of call-control events between two
    clients. Each handler is one atomic step from a roster to a new roster and
    the list of events it emits. */
module Signaling {
  import opened Results
  import opened Seqs

  /** A socket id, issued by the transport. */
  type Id = string

  /** A session description (offer or answer); opaque to the router. */
  datatype Description = Description(sdp: string, kind: string)

  /** Events the server sends to clients, with their payloads. */
  datatype Message =
    | UpdateUserList(users: seq<Id>)
    | RemoveUser(socketId: Id)
    | CallMade(offer: Description, socket: Id)
    | AnswerMade(socket: Id, answer: Description)
    | CallRejected(socket: Id)

  /** Who an emit is addressed to: `to=sid`, `skip_sid=sid`, or a broadcast
      that includes the sender. */
  datatype Target = To(room: Id) | SkipSid(skip: Id) | Everyone

  predicate Reaches(t: Target, c: Id) {
    match t
    case To(room) => c == room
    case SkipSid(skip) => c != skip
    case Everyone => true
  }

  datatype Emission = Emission(msg: Message, target: Target)

  /** The target of `emit(..., to=value)`. python-socketio addresses
      `to or room`, so an empty string addresses nobody in particular and the
      emit is a broadcast to every client. */
  function Recipient(to: Id): Target {
    if to == "" then Everyone else To(to)
  }

  /** What client `c` is sent by `emit(m, to=target)`: `m` when `c` is the
      target or the target is empty, nothing otherwise. */
  function Addressed(c: Id, target: Id, m: Message): seq<Message> {
    if c == target || target == "" then [m] else []
  }

  /** The messages that client `c` is sent, in emission order. */
  function Received(es: seq<Emission>, c: Id): (r: seq<Message>)
    ensures |r| <= |es|
    ensures forall m :: m in r ==> exists e :: e in es && e.msg == m && Reaches(e.target, c)
  {
    if es == [] then []
    else
      (if Reaches(es[0].target, c) then [es[0].msg] else []) + Received(es[1..], c)
  }

  /** A single emission is received exactly when its target reaches `c`. */
  lemma ReceivedOne(em: Emission, c: Id)
    ensures Received([em], c) == if Reaches(em.target, c) then [em.msg] else []
  {
    assert [em][1..] == [];
  }

  lemma {:induction false} ReceivedAppend(a: seq<Emission>, b: seq<Emission>, c: Id)
    ensures Received(a + b, c) == Received(a, c) + Received(b, c)
    decreases |a|
  {
    if a == [] {
      assert a + b == b;
    } else {
      assert (a + b)[0] == a[0];
      assert (a + b)[1..] == a[1..] + b;
      ReceivedAppend(a[1..], b, c);
      var h := if Reaches(a[0].target, c) then [a[0].msg] else [];
      assert Received(a + b, c) == h + Received(a[1..] + b, c);
      assert Received(a, c) == h + Received(a[1..], c);
    }
  }

  /** Payloads of the client-to-server events; a field is `None` when the key is
      missing from the dictionary. */
  datatype CallUserData = CallUserData(offer: Option<Description>, to: Option<Id>)
  datatype MakeAnswerData = MakeAnswerData(answer: Option<Description>, to: Option<Id>)
  datatype RejectCallData = RejectCallData(from: Option<Id>)

  /** Events the server handles; `sid` is the sender's socket id. */
  datatype Incoming =
    | Connect(sid: Id)
    | Disconnect(sid: Id)
    | CallUser(sid: Id, callData: CallUserData)
    | MakeAnswer(sid: Id, answerData: MakeAnswerData)
    | RejectCall(sid: Id, rejectData: RejectCallData)

  /** What a handler raises: a missing payload key, or `list.remove` of an absent id. */
  datatype Failure = KeyError(key: string) | ValueError

  datatype Outcome = Outcome(roster: seq<Id>, emitted: seq<Emission>)

  /** `connect`: a new sid is sent the roster as it was, appended, and announced
      to everybody else; a sid already present is ignored. */
  function OnConnect(roster: seq<Id>, sid: Id): (r: Outcome)
    ensures sid in roster ==> r == Outcome(roster, [])
    ensures sid !in roster ==>
      && r.roster == roster + [sid]
      && r.emitted == [Emission(UpdateUserList(roster), To(sid)),
                       Emission(UpdateUserList([sid]), SkipSid(sid))]
    ensures sid !in roster ==>
      forall c :: Received(r.emitted, c) == (if c == sid then [UpdateUserList(roster)] else [UpdateUserList([sid])])
    ensures NoDup(roster) ==> NoDup(r.roster)
  {
    if sid !in roster then
      Outcome(roster + [sid], [Emission(UpdateUserList(roster), To(sid)),
                               Emission(UpdateUserList([sid]), SkipSid(sid))])
    else
      Outcome(roster, [])
  }

  /** `disconnect`: removes the sid, raising when it is absent, and then tells
      every client, the leaving one included. */
  function OnDisconnect(roster: seq<Id>, sid: Id): (r: Result<Outcome, Failure>)
    ensures sid !in roster <==> r == Err(ValueError)
    ensures r.Ok? ==>
      && r.value.roster == roster[..IndexOf(roster, sid)] + roster[IndexOf(roster, sid) + 1..]
      && forall c :: Received(r.value.emitted, c) == [RemoveUser(sid)]
    ensures r.Ok? && NoDup(roster) ==> NoDup(r.value.roster) && sid !in r.value.roster
  {
    if sid !in roster then Err(ValueError)
    else
      RemoveFirstNoDup(roster, sid);
      Ok(Outcome(RemoveFirst(roster, sid), [Emission(RemoveUser(sid), Everyone)]))
  }

  /** `call-user`: forwards the offer to `data.to` as `call-made`. */
  function OnCallUser(sid: Id, data: CallUserData): (r: Result<Emission, Failure>)
    ensures data.offer.None? ==> r == Err(KeyError("offer"))
    ensures data.offer.Some? && data.to.None? ==> r == Err(KeyError("to"))
    ensures r.Ok? <==> data.offer.Some? && data.to.Some?
    ensures r.Ok? ==> forall c :: Received([r.value], c) == Addressed(c, data.to.value, CallMade(data.offer.value, sid))
  {
    match data
    case CallUserData(None, _) => Err(KeyError("offer"))
    case CallUserData(Some(_), None) => Err(KeyError("to"))
    case CallUserData(Some(offer), Some(to)) =>
      Ok(Emission(CallMade(offer, sid), Recipient(to)))
  }

  /** `make-answer`: forwards the answer to `data.to` as `answer-made`. */
  function OnMakeAnswer(sid: Id, data: MakeAnswerData): (r: Result<Emission, Failure>)
    ensures data.answer.None? ==> r == Err(KeyError("answer"))
    ensures data.answer.Some? && data.to.None? ==> r == Err(KeyError("to"))
    ensures r.Ok? <==> data.answer.Some? && data.to.Some?
    ensures r.Ok? ==> forall c :: Received([r.value], c) == Addressed(c, data.to.value, AnswerMade(sid, data.answer.value))
  {
    match data
    case MakeAnswerData(None, _) => Err(KeyError("answer"))
    case MakeAnswerData(Some(_), None) => Err(KeyError("to"))
    case MakeAnswerData(Some(answer), Some(to)) =>
      Ok(Emission(AnswerMade(sid, answer), Recipient(to)))
  }

  /** `reject-call`: tells the original caller, named by `data.from`, that the call was rejected. */
  function OnRejectCall(sid: Id, data: RejectCallData): (r: Result<Emission, Failure>)
    ensures data.from.None? <==> r == Err(KeyError("from"))
    ensures r.Ok? ==> forall c :: Received([r.value], c) == Addressed(c, data.from.value, CallRejected(sid))
  {
    match data.from
    case None => Err(KeyError("from"))
    case Some(from) => Ok(Emission(CallRejected(sid), Recipient(from)))
  }

  /** One handler invocation. Forwarding handlers never touch the roster. */
  function Step(roster: seq<Id>, e: Incoming): (r: Result<Outcome, Failure>)
    ensures (e.CallUser? || e.MakeAnswer? || e.RejectCall?) && r.Ok? ==>
      r.value.roster == roster && |r.value.emitted| == 1
    ensures r.Ok? && NoDup(roster) ==> NoDup(r.value.roster)
  {
    match e
    case Connect(sid) => Ok(OnConnect(roster, sid))
    case Disconnect(sid) => OnDisconnect(roster, sid)
    case CallUser(sid, data) => Forwarded(roster, OnCallUser(sid, data))
    case MakeAnswer(sid, data) => Forwarded(roster, OnMakeAnswer(sid, data))
    case RejectCall(sid, data) => Forwarded(roster, OnRejectCall(sid, data))
  }

  function Forwarded(roster: seq<Id>, r: Result<Emission, Failure>): Result<Outcome, Failure> {
    match r
    case Ok(em) => Ok(Outcome(roster, [em]))
    case Err(f) => Err(f)
  }

  /** A handler that raises leaves the roster as it was and emits nothing;
      socket.io logs the exception and keeps serving. */
  function Apply(roster: seq<Id>, e: Incoming): (r: Outcome)
    ensures Step(roster, e).Ok? ==> r == Step(roster, e).value
    ensures Step(roster, e).Err? ==> r == Outcome(roster, [])
    ensures NoDup(roster) ==> NoDup(r.roster)
  {
    match Step(roster, e)
    case Ok(o) => o
    case Err(_) => Outcome(roster, [])
  }

  /** The roster after a sequence of events, and everything emitted on the way. */
  function Run(r0: seq<Id>, t: seq<Incoming>): (o: Outcome)
    ensures NoDup(r0) ==> NoDup(o.roster)
    decreases |t|
  {
    if t == [] then Outcome(r0, [])
    else
      var o := Run(r0, t[..|t| - 1]);
      var s := Apply(o.roster, t[|t| - 1]);
      Outcome(s.roster, o.emitted + s.emitted)
  }

  /** Reference definition of presence, independent of the roster: the index of
      the event that made `x` connected, or `None` when `x` is not connected after
      `t`. A repeated connect does not move it; a disconnect clears it. */
  function Since(t: seq<Incoming>, x: Id): Option<nat>
    decreases |t|
  {
    if t == [] then None
    else
      var p := Since(t[..|t| - 1], x);
      match t[|t| - 1]
      case Connect(sid) => if sid == x && p.None? then Some(|t| - 1) else p
      case Disconnect(sid) => if sid == x then None else p
      case _ => p
  }

  predicate Earlier(a: Option<nat>, b: Option<nat>) {
    a.Some? && b.Some? && a.value < b.value
  }

  /** The roster holds exactly the connected ids, once each, in connect order. */
  ghost predicate Faithful(t: seq<Incoming>, roster: seq<Id>) {
    && NoDup(roster)
    && (forall x :: x in roster <==> Since(t, x).Some?)
    && (forall x :: Since(t, x).Some? ==> Since(t, x).value < |t|)
    && (forall i, j :: 0 <= i < j < |roster| ==> Earlier(Since(t, roster[i]), Since(t, roster[j])))
  }

  /** Starting from the empty roster, any sequence of events leaves a roster
      without duplicates that lists the connected ids in the order they connected. */
  lemma {:induction false} RosterFollowsConnections(t: seq<Incoming>)
    ensures Faithful(t, Run([], t).roster)
    decreases |t|
  {
    if t != [] {
      var p := t[..|t| - 1];
      var e := t[|t| - 1];
      RosterFollowsConnections(p);
      var R := Run([], p).roster;
      var R' := Run([], t).roster;
      assert R' == Apply(R, e).roster;
      match e
      case Connect(sid) =>
        if sid in R {
          assert R' == R;
          assert forall x :: Since(t, x) == Since(p, x);
        } else {
          ConnectKeepsFaithful(t, p, R, sid);
        }
      case Disconnect(sid) =>
        if sid in R {
          DisconnectKeepsFaithful(t, p, R, sid);
        } else {
          assert R' == R;
          assert forall x :: Since(t, x) == Since(p, x);
        }
      case CallUser(_, _) =>
        assert forall x :: Since(t, x) == Since(p, x);
      case MakeAnswer(_, _) =>
        assert forall x :: Since(t, x) == Since(p, x);
      case RejectCall(_, _) =>
        assert forall x :: Since(t, x) == Since(p, x);
    }
  }

  lemma ConnectKeepsFaithful(t: seq<Incoming>, p: seq<Incoming>, R: seq<Id>, sid: Id)
    requires |t| > 0 && p == t[..|t| - 1] && t[|t| - 1] == Connect(sid)
    requires Faithful(p, R) && sid !in R
    ensures Faithful(t, R + [sid])
  {
    var R' := R + [sid];
    assert Since(t, sid) == Some(|p|);
    assert forall x :: x != sid ==> Since(t, x) == Since(p, x);
    forall i, j | 0 <= i < j < |R'|
      ensures Earlier(Since(t, R'[i]), Since(t, R'[j]))
    {
      assert R[i] in R;
      if j < |R| {
        assert R[j] in R;
      }
    }
    forall i, j | 0 <= i < j < |R'|
      ensures R'[i] != R'[j]
    {
      assert R[i] in R;
    }
  }

  lemma DisconnectKeepsFaithful(t: seq<Incoming>, p: seq<Incoming>, R: seq<Id>, sid: Id)
    requires |t| > 0 && p == t[..|t| - 1] && t[|t| - 1] == Disconnect(sid)
    requires Faithful(p, R) && sid in R
    ensures Faithful(t, RemoveFirst(R, sid))
  {
    var R' := RemoveFirst(R, sid);
    SinceAfterDisconnect(t, p, sid);
    RemoveKeepsOrder(p, R, sid);
    RemoveFirstMembers(R, sid);
    forall x
      ensures x in R' <==> Since(t, x).Some?
    {
      if x != sid {
        assert Since(t, x) == Since(p, x);
        assert x in R <==> Since(p, x).Some?;
      }
    }
    forall i, j | 0 <= i < j < |R'|
      ensures Earlier(Since(t, R'[i]), Since(t, R'[j]))
    {
      assert R'[i] != sid && R'[j] != sid;
      assert Since(t, R'[i]) == Since(p, R'[i]);
      assert Since(t, R'[j]) == Since(p, R'[j]);
    }
    forall x | Since(t, x).Some?
      ensures Since(t, x).value < |t|
    {
      assert x != sid;
      assert Since(t, x) == Since(p, x);
    }
  }

  lemma SinceAfterDisconnect(t: seq<Incoming>, p: seq<Incoming>, sid: Id)
    requires |t| > 0 && p == t[..|t| - 1] && t[|t| - 1] == Disconnect(sid)
    ensures Since(t, sid).None?
    ensures forall x :: x != sid ==> Since(t, x) == Since(p, x)
  {
  }

  lemma RemoveKeepsOrder(p: seq<Incoming>, R: seq<Id>, sid: Id)
    requires sid in R
    requires forall i, j :: 0 <= i < j < |R| ==> Earlier(Since(p, R[i]), Since(p, R[j]))
    ensures forall i, j :: 0 <= i < j < |RemoveFirst(R, sid)| ==>
      Earlier(Since(p, RemoveFirst(R, sid)[i]), Since(p, RemoveFirst(R, sid)[j]))
  {
    var R' := RemoveFirst(R, sid);
    var k := IndexOf(R, sid);
    forall i, j | 0 <= i < j < |R'|
      ensures Earlier(Since(p, R'[i]), Since(p, R'[j]))
    {
      RemoveFirstAt(R, sid, i);
      RemoveFirstAt(R, sid, j);
      assert Skip(i, k) < Skip(j, k);
    }
  }
}
