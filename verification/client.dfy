/** The browser page: its list of shown users (the `active-user-container`
    children, by element id), the `getCalled` and `isAlreadyCalling` flags, and
    the handlers that react to server events and clicks. Peer-connection work
    (`setRemoteDescription`, `createAnswer`, ICE gathering) is not modelled; its
    results enter as inputs. */
module Client {
  import opened Results
  import opened Seqs
  import opened Signaling

  datatype ClientState = ClientState(shown: seq<Id>, getCalled: bool, isAlreadyCalling: bool)

  /** What the page reacts to: a server event, the `create-connection` event, a click on a shown user. */
  datatype Inbound = FromServer(msg: Message) | CreateConnection(from: Id) | Clicked(id: Id)

  /** Browser inputs a handler consults: the user's answer to `confirm()`; the
      answer description produced by the awaited `setRemoteDescription`,
      `createAnswer` and `setLocalDescription` of `call-made`, or `None` when one
      of them rejects; and whether the awaited `setRemoteDescription` of
      `answer-made` resolved. */
  datatype Env = Env(confirmed: bool, answer: Option<Description>, answerApplied: bool)

  datatype Input = Input(event: Inbound, env: Env)

  /** Events the page emits on its socket. */
  datatype Outbound = SendMakeAnswer(answer: Description, to: Id) | SendRejectCall(from: Id)

  /** Observable effects: a `confirm()` prompt about a caller, an emit, and a
      `callUser(socketId, is_caller, mode)` invocation (an argument left out in
      JavaScript is `None`). */
  datatype Action =
    | Ask(caller: Id)
    | Send(out: Outbound)
    | Call(to: Id, isCaller: Option<bool>, mode: Option<string>)

  datatype Reaction = Reaction(state: ClientState, actions: seq<Action>)

  /** `updateUserList`: walks the ids in order and appends each one that no
      element shows yet. */
  function UpdateUserList(shown: seq<Id>, ids: seq<Id>): (r: seq<Id>)
    ensures |shown| <= |r| && r[..|shown|] == shown
    ensures forall x {:trigger x in r} :: x in r <==> x in shown || x in ids
    ensures forall i :: |shown| <= i < |r| ==> r[i] in ids && r[i] !in shown
    ensures NoDup(shown) ==> NoDup(r)
    decreases |ids|
  {
    if ids == [] then shown
    else
      var next := if ids[0] in shown then shown else shown + [ids[0]];
      var r := UpdateUserList(next, ids[1..]);
      assert forall i :: |next| <= i < |r| ==> r[i] in ids;
      assert r[..|next|][..|shown|] == shown;
      r
  }

  /** The entries `updateUserList` appends come in the order of their first
      occurrence in the input. */
  lemma AppendsInInputOrder(shown: seq<Id>, ids: seq<Id>)
    ensures forall i, j :: |shown| <= i < j < |UpdateUserList(shown, ids)| ==>
      IndexOf(ids, UpdateUserList(shown, ids)[i]) < IndexOf(ids, UpdateUserList(shown, ids)[j])
  {
    var r := UpdateUserList(shown, ids);
    forall i, j | |shown| <= i < j < |r|
      ensures IndexOf(ids, r[i]) < IndexOf(ids, r[j])
    {
      AppendedBefore(shown, ids, i, j);
    }
  }

  /** One pair of appended entries, by induction on the input. */
  lemma {:induction false} AppendedBefore(shown: seq<Id>, ids: seq<Id>, i: nat, j: nat)
    requires |shown| <= i < j < |UpdateUserList(shown, ids)|
    ensures IndexOf(ids, UpdateUserList(shown, ids)[i]) < IndexOf(ids, UpdateUserList(shown, ids)[j])
    decreases |ids|
  {
    var a := ids[0];
    var next := if a in shown then shown else shown + [a];
    var r := UpdateUserList(shown, ids);
    assert r == UpdateUserList(next, ids[1..]);
    assert r[j] in ids[1..] && r[j] !in next;
    assert a in next;
    IndexOfTail(ids, r[j]);
    if i < |next| {
      assert r[..|next|] == next;
      assert r[i] == a;
    } else {
      assert r[i] in ids[1..] && r[i] !in next;
      IndexOfTail(ids, r[i]);
      AppendedBefore(next, ids[1..], i, j);
    }
  }

  /** Ids that are all shown already change nothing. */
  lemma {:induction false} UpdateKnown(shown: seq<Id>, ids: seq<Id>)
    requires forall i :: 0 <= i < |ids| ==> ids[i] in shown
    ensures UpdateUserList(shown, ids) == shown
    decreases |ids|
  {
    if ids != [] {
      UpdateKnown(shown, ids[1..]);
    }
  }

  /** `updateUserList` is idempotent: a repeated list shows nothing new. */
  lemma UpdateIdempotent(shown: seq<Id>, ids: seq<Id>)
    ensures UpdateUserList(UpdateUserList(shown, ids), ids) == UpdateUserList(shown, ids)
  {
    var once := UpdateUserList(shown, ids);
    forall i | 0 <= i < |ids|
      ensures ids[i] in once
    {
    }
    UpdateKnown(once, ids);
  }

  /** Distinct ids none of which is shown are appended as given. */
  lemma {:induction false} UpdateFresh(shown: seq<Id>, ids: seq<Id>)
    requires NoDup(ids)
    requires forall i :: 0 <= i < |ids| ==> ids[i] !in shown
    ensures UpdateUserList(shown, ids) == shown + ids
    decreases |ids|
  {
    if ids != [] {
      var a, rest := ids[0], ids[1..];
      var next := shown + [a];
      assert next + rest == shown + ids;
      assert a !in shown;
      assert UpdateUserList(shown, ids) == UpdateUserList(next, rest);
      FreshTail(shown, ids);
      UpdateFresh(next, rest);
    }
  }

  /** Dropping the head of a duplicate-free, unseen list keeps it so relative to the grown list. */
  lemma FreshTail(shown: seq<Id>, ids: seq<Id>)
    requires ids != [] && NoDup(ids)
    requires forall i :: 0 <= i < |ids| ==> ids[i] !in shown
    ensures NoDup(ids[1..])
    ensures forall i :: 0 <= i < |ids| - 1 ==> ids[1..][i] !in shown + [ids[0]]
  {
    var rest := ids[1..];
    forall i, j | 0 <= i < j < |rest|
      ensures rest[i] != rest[j]
    {
      assert rest[i] == ids[i + 1] && rest[j] == ids[j + 1];
    }
    forall i | 0 <= i < |rest|
      ensures rest[i] !in shown + [ids[0]]
    {
      assert rest[i] == ids[i + 1];
      assert ids[i + 1] != ids[0];
      assert ids[i + 1] !in shown;
    }
  }

  /** The `remove-user` handler: removes the element with that id if there is one. */
  function OnRemoveUser(shown: seq<Id>, id: Id): (r: seq<Id>)
    ensures id !in shown ==> r == shown
    ensures id in shown ==> r == shown[..IndexOf(shown, id)] + shown[IndexOf(shown, id) + 1..]
    ensures NoDup(shown) ==> NoDup(r) && id !in r
  {
    RemoveFirstNoDup(shown, id);
    RemoveFirst(shown, id)
  }

  /** The effect of a server event on the shown list. */
  function Show(shown: seq<Id>, m: Message): seq<Id> {
    match m
    case UpdateUserList(users) => UpdateUserList(shown, users)
    case RemoveUser(id) => OnRemoveUser(shown, id)
    case _ => shown
  }

  /** The shown list after a run of server events. */
  function ShowAll(shown: seq<Id>, ms: seq<Message>): seq<Id>
    decreases |ms|
  {
    if ms == [] then shown else ShowAll(Show(shown, ms[0]), ms[1..])
  }

  /** Handling a single message is one `Show`. */
  lemma ShowOne(shown: seq<Id>, m: Message)
    ensures ShowAll(shown, [m]) == Show(shown, m)
  {
    assert [m][1..] == [];
  }

  lemma {:induction false} ShowAllAppend(shown: seq<Id>, a: seq<Message>, b: seq<Message>)
    ensures ShowAll(shown, a + b) == ShowAll(ShowAll(shown, a), b)
    decreases |a|
  {
    if a == [] {
      assert a + b == b;
    } else {
      assert (a + b)[0] == a[0];
      assert (a + b)[1..] == a[1..] + b;
      ShowAllAppend(Show(shown, a[0]), a[1..], b);
    }
  }

  /** The `call-made` handler. Before the first answered call it answers
      without asking; afterwards it asks, and a refusal emits `reject-call`
      instead. When an awaited peer-connection call rejects (`env.answer` is
      `None`), nothing is emitted and `getCalled` is not set. */
  function OnCallMade(s: ClientState, caller: Id, env: Env): (r: Reaction)
    ensures r.state.shown == s.shown && r.state.isAlreadyCalling == s.isAlreadyCalling
    ensures r.state.getCalled <==> s.getCalled || env.answer.Some?
    ensures !s.getCalled && env.answer.Some? ==>
      r.actions == [Send(SendMakeAnswer(env.answer.value, caller))]
    ensures !s.getCalled && env.answer.None? ==> r.actions == []
    ensures s.getCalled && env.confirmed && env.answer.Some? ==>
      r.actions == [Ask(caller), Send(SendMakeAnswer(env.answer.value, caller))]
    ensures s.getCalled && env.confirmed && env.answer.None? ==> r.actions == [Ask(caller)]
    ensures s.getCalled && !env.confirmed ==>
      r.actions == [Ask(caller), Send(SendRejectCall(caller))]
  {
    if s.getCalled && !env.confirmed then
      Reaction(s, [Ask(caller), Send(SendRejectCall(caller))])
    else
      var prompt := if s.getCalled then [Ask(caller)] else [];
      match env.answer
      case None => Reaction(s, prompt)
      case Some(answer) =>
        Reaction(s.(getCalled := true), prompt + [Send(SendMakeAnswer(answer, caller))])
  }

  /** The `answer-made` handler: once the answer is applied, it calls the
      answering user back, with no `is_caller` and no transform, unless it has
      done so before. If applying the answer rejects, nothing happens. */
  function OnAnswerMade(s: ClientState, answerer: Id, applied: bool): (r: Reaction)
    ensures r.state.shown == s.shown && r.state.getCalled == s.getCalled
    ensures r.state.isAlreadyCalling <==> s.isAlreadyCalling || applied
    ensures applied && !s.isAlreadyCalling <==> r.actions == [Call(answerer, None, None)]
    ensures !applied || s.isAlreadyCalling <==> r.actions == []
  {
    if applied && !s.isAlreadyCalling then
      Reaction(s.(isAlreadyCalling := true), [Call(answerer, None, None)])
    else
      Reaction(s, [])
  }

  /** One handler run. */
  function Step(s: ClientState, input: Input): (r: Reaction)
    ensures input.event.Clicked? ==>
      r == Reaction(s, [Call(input.event.id, Some(true), Some("rotate"))])
    ensures input.event.CreateConnection? ==>
      r == Reaction(s, [Call(input.event.from, Some(false), Some("edges"))])
    ensures NoDup(s.shown) ==> NoDup(r.state.shown)
  {
    match input.event
    case Clicked(id) => Reaction(s, [Call(id, Some(true), Some("rotate"))])
    case CreateConnection(from) => Reaction(s, [Call(from, Some(false), Some("edges"))])
    case FromServer(m) =>
      match m
      case CallMade(_, caller) => OnCallMade(s, caller, input.env)
      case AnswerMade(answerer, _) => OnAnswerMade(s, answerer, input.env.answerApplied)
      case CallRejected(_) => Reaction(s, [])
      case _ => Reaction(s.(shown := Show(s.shown, m)), [])
  }

  /** The state after a run of inputs and every action taken on the way. */
  function Run(s: ClientState, ins: seq<Input>): Reaction
    decreases |ins|
  {
    if ins == [] then Reaction(s, [])
    else
      var first := Step(s, ins[0]);
      var rest := Run(first.state, ins[1..]);
      Reaction(rest.state, first.actions + rest.actions)
  }

  predicate IsCallMade(i: Input) {
    i.event.FromServer? && i.event.msg.CallMade?
  }

  /** A `call-made` whose awaited answer was produced. */
  predicate IsAnsweredCall(i: Input) {
    IsCallMade(i) && i.env.answer.Some?
  }

  /** An `answer-made` whose awaited `setRemoteDescription` resolved. */
  predicate IsAppliedAnswer(i: Input) {
    i.event.FromServer? && i.event.msg.AnswerMade? && i.env.answerApplied
  }

  /** Position of the first answered `call-made`. */
  function FirstAnswered(ins: seq<Input>): (k: Option<nat>)
    ensures k.Some? ==> k.value < |ins| && IsAnsweredCall(ins[k.value])
    decreases |ins|
  {
    if ins == [] then None
    else if IsAnsweredCall(ins[0]) then Some(0)
    else
      match FirstAnswered(ins[1..])
      case None => None
      case Some(k) => Some(k + 1)
  }

  /** How many inputs satisfy `p`. */
  function CountInputs(ins: seq<Input>, p: Input -> bool): nat
    decreases |ins|
  {
    if ins == [] then 0 else (if p(ins[0]) then 1 else 0) + CountInputs(ins[1..], p)
  }

  /** How many actions are call-backs (a `callUser` without `is_caller`). */
  function CallBacks(acts: seq<Action>): nat
    decreases |acts|
  {
    if acts == [] then 0
    else (if acts[0].Call? && acts[0].isCaller.None? then 1 else 0) + CallBacks(acts[1..])
  }

  /** How many actions are `confirm()` prompts. */
  function Prompts(acts: seq<Action>): nat
    decreases |acts|
  {
    if acts == [] then 0 else (if acts[0].Ask? then 1 else 0) + Prompts(acts[1..])
  }

  lemma {:induction false} CountsAppend(a: seq<Action>, b: seq<Action>)
    ensures CallBacks(a + b) == CallBacks(a) + CallBacks(b)
    ensures Prompts(a + b) == Prompts(a) + Prompts(b)
    decreases |a|
  {
    if a == [] {
      assert a + b == b;
    } else {
      assert (a + b)[0] == a[0];
      assert (a + b)[1..] == a[1..] + b;
      CountsAppend(a[1..], b);
    }
  }

  /** What one handler run contributes to the prompt and call-back counts and
      to the two flags. */
  lemma StepCounts(s: ClientState, input: Input)
    ensures Prompts(Step(s, input).actions) == (if IsCallMade(input) && s.getCalled then 1 else 0)
    ensures CallBacks(Step(s, input).actions) ==
      (if IsAppliedAnswer(input) && !s.isAlreadyCalling then 1 else 0)
    ensures Step(s, input).state.getCalled <==> s.getCalled || IsAnsweredCall(input)
    ensures Step(s, input).state.isAlreadyCalling <==> s.isAlreadyCalling || IsAppliedAnswer(input)
  {
    var acts := Step(s, input).actions;
    if IsCallMade(input) {
      var caller := input.event.msg.socket;
      var env := input.env;
      if !s.getCalled {
        if env.answer.Some? {
          assert acts == [Send(SendMakeAnswer(env.answer.value, caller))];
        } else {
          assert acts == [];
        }
      } else if !env.confirmed {
        assert acts == [Ask(caller), Send(SendRejectCall(caller))];
        PairCounts(acts);
      } else if env.answer.Some? {
        assert acts == [Ask(caller), Send(SendMakeAnswer(env.answer.value, caller))];
        PairCounts(acts);
      } else {
        assert acts == [Ask(caller)];
      }
    } else if input.event.FromServer? && input.event.msg.AnswerMade? {
      if input.env.answerApplied && !s.isAlreadyCalling {
        assert acts == [Call(input.event.msg.socket, None, None)];
      } else {
        assert acts == [];
      }
    } else if input.event.FromServer? {
      assert acts == [];
    } else {
      assert |acts| == 1 && acts[0].Call? && acts[0].isCaller.Some?;
    }
  }

  lemma PairCounts(acts: seq<Action>)
    requires |acts| == 2
    ensures CallBacks(acts) == CallBacks([acts[0]]) + CallBacks([acts[1]])
    ensures Prompts(acts) == Prompts([acts[0]]) + Prompts([acts[1]])
  {
    CountsAppend([acts[0]], [acts[1]]);
    assert [acts[0]] + [acts[1]] == acts;
  }

  /** Over any run, the page calls back at most once: exactly once if an
      answer was applied while `isAlreadyCalling` was still false, never otherwise. */
  lemma {:induction false} CallBackAtMostOnce(s: ClientState, ins: seq<Input>)
    ensures CallBacks(Run(s, ins).actions) ==
      (if s.isAlreadyCalling || CountInputs(ins, IsAppliedAnswer) == 0 then 0 else 1)
    ensures Run(s, ins).state.isAlreadyCalling <==>
      s.isAlreadyCalling || CountInputs(ins, IsAppliedAnswer) > 0
    decreases |ins|
  {
    if ins != [] {
      var first := Step(s, ins[0]);
      var rest := Run(first.state, ins[1..]);
      StepCounts(s, ins[0]);
      CallBackAtMostOnce(first.state, ins[1..]);
      CountsAppend(first.actions, rest.actions);
      assert Run(s, ins).actions == first.actions + rest.actions;
      assert CountInputs(ins, IsAppliedAnswer) ==
        (if IsAppliedAnswer(ins[0]) then 1 else 0) + CountInputs(ins[1..], IsAppliedAnswer);
    }
  }

  /** Once `getCalled` is set, every `call-made` prompts the user, and the flag stays set. */
  lemma {:induction false} PromptsWhileCalled(s: ClientState, ins: seq<Input>)
    requires s.getCalled
    ensures Prompts(Run(s, ins).actions) == CountInputs(ins, IsCallMade)
    ensures Run(s, ins).state.getCalled
    decreases |ins|
  {
    if ins != [] {
      var first := Step(s, ins[0]);
      var rest := Run(first.state, ins[1..]);
      StepCounts(s, ins[0]);
      PromptsWhileCalled(first.state, ins[1..]);
      CountsAppend(first.actions, rest.actions);
      assert Run(s, ins).actions == first.actions + rest.actions;
    }
  }

  /** Before `getCalled` is set no `call-made` prompts. The first answered
      `call-made` sets it, and from then on every `call-made` prompts; if no call
      is answered, the flag stays clear. */
  lemma {:induction false} PromptsAfterFirstAnswer(s: ClientState, ins: seq<Input>)
    requires !s.getCalled
    ensures Run(s, ins).state.getCalled <==> FirstAnswered(ins).Some?
    ensures FirstAnswered(ins).None? ==> Prompts(Run(s, ins).actions) == 0
    ensures FirstAnswered(ins).Some? ==>
      Prompts(Run(s, ins).actions) == CountInputs(ins[FirstAnswered(ins).value + 1..], IsCallMade)
    decreases |ins|
  {
    if ins != [] {
      var first := Step(s, ins[0]);
      var rest := Run(first.state, ins[1..]);
      StepCounts(s, ins[0]);
      CountsAppend(first.actions, rest.actions);
      assert Run(s, ins).actions == first.actions + rest.actions;
      assert Prompts(first.actions) == 0;
      if IsAnsweredCall(ins[0]) {
        PromptsWhileCalled(first.state, ins[1..]);
      } else {
        PromptsAfterFirstAnswer(first.state, ins[1..]);
        var k := FirstAnswered(ins[1..]);
        if k.Some? {
          assert ins[1..][k.value + 1..] == ins[k.value + 2..];
        }
      }
    }
  }
  /** JSON values in a request body. */
  datatype Json = JString(s: string) | JBool(b: bool) | JDescription(d: Description)

  /** The body `callUser` posts to `/call-user`, as `JSON.stringify` writes it:
      a key whose value is `undefined` is left out. `self` is `socket.id` and
      `local` the gathered local description. */
  function RequestBody(self: Id, local: Description, to: Id, isCaller: Option<bool>, mode: Option<string>): (body: map<string, Json>)
    ensures Lookup(body, "to") == Ok(JString(to))
    ensures Lookup(body, "from") == Ok(JString(self))
    ensures Lookup(body, "sdp") == Ok(JString(local.sdp))
    ensures Lookup(body, "type") == Ok(JString(local.kind))
    ensures Lookup(body, "offer") == Ok(JDescription(local))
    ensures isCaller.Some? ==> Lookup(body, "is_caller") == Ok(JBool(isCaller.value))
    ensures isCaller.None? <==> Lookup(body, "is_caller") == Err(KeyError("is_caller"))
    ensures mode.Some? ==> Lookup(body, "video_transform") == Ok(JString(mode.value))
    ensures mode.None? <==> Lookup(body, "video_transform") == Err(KeyError("video_transform"))
  {
    var base := map[
      "sdp" := JString(local.sdp),
      "type" := JString(local.kind),
      "offer" := JDescription(local),
      "to" := JString(to),
      "from" := JString(self)];
    var withCaller := if isCaller.Some? then base["is_caller" := JBool(isCaller.value)] else base;
    if mode.Some? then withCaller["video_transform" := JString(mode.value)] else withCaller
  }

  /** Reading a key of the decoded body on the server, `params[key]`. */
  function Lookup(body: map<string, Json>, key: string): Result<Json, Failure> {
    if key in body then Ok(body[key]) else Err(KeyError(key))
  }

  /** The call-back made on `answer-made` posts a body with neither
      `is_caller` nor `video_transform`; a click posts a caller request for
      "rotate"; `create-connection` posts a callee request for "edges". */
  lemma CallBodies(s: ClientState, input: Input, self: Id, local: Description)
    ensures IsAppliedAnswer(input) && !s.isAlreadyCalling ==>
      var a := Step(s, input).actions[0];
      var body := RequestBody(self, local, a.to, a.isCaller, a.mode);
      && a.to == input.event.msg.socket
      && Lookup(body, "is_caller") == Err(KeyError("is_caller"))
      && Lookup(body, "video_transform") == Err(KeyError("video_transform"))
    ensures input.event.Clicked? ==>
      var a := Step(s, input).actions[0];
      var body := RequestBody(self, local, a.to, a.isCaller, a.mode);
      && Lookup(body, "to") == Ok(JString(input.event.id))
      && Lookup(body, "is_caller") == Ok(JBool(true))
      && Lookup(body, "video_transform") == Ok(JString("rotate"))
    ensures input.event.CreateConnection? ==>
      var a := Step(s, input).actions[0];
      var body := RequestBody(self, local, a.to, a.isCaller, a.mode);
      && Lookup(body, "to") == Ok(JString(input.event.from))
      && Lookup(body, "is_caller") == Ok(JBool(false))
      && Lookup(body, "video_transform") == Ok(JString("edges"))
  {
  }
}
