/** Model of the passkey relay (apps/extension/src/passkey-broker.ts): callers open flows, each flow
    opens a window, and a page in that window may answer.  Ports, windows and flow ids are numbers;
    every callback is one event. */
module PasskeyRelay {
  import opened Wrappers

  type Id = nat
  type Port = nat
  type Window = nat

  const MAX_FLOWS := 8

  datatype Flow = Flow(caller: Port, child: Option<Port>, window: Option<Window>, done: bool)

  /** A page's port: the flow its address names and the window its tab is in. */
  datatype Page = Page(request: Id, window: Option<Window>, disconnected: bool)

  /** `Result` carries the port whose message is relayed. */
  datatype Answer = Result(source: Port) | Cancelled | Invalid

  /** `Ping` keeps a page's port open and is not answered. */
  datatype Message = Ping | ErrorMessage | BadMessage | GoodMessage

  /** `said` is the page's message that is answered, if one is. */
  datatype Reply = Reply(id: Id, caller: Port, answer: Answer, said: Option<Message>)

  datatype Sent = Sent(id: Id, child: Port)

  /** `live` are the keys of the `flows` map; `flows` are the flow objects, which callbacks may still
      hold after the map has dropped them.  `replies` and `sent` are history. */
  datatype State = State(
    live: set<Id>,
    flows: map<Id, Flow>,
    nextId: Id,
    pages: map<Port, Page>,
    replies: seq<Reply>,
    sent: seq<Sent>)

  datatype Event =
    | CallerAsks(caller: Port)
    | CallerGone(id: Id)
    | WindowOpens(id: Id, window: Window)
    | WindowFails(id: Id)
    | WindowCloses(window: Window, id: Id)
    | TimesOut(id: Id)
    | PageConnects(port: Port, request: Id, tabWindow: Option<Window>)
    | PageAttaches(port: Port)
    | PageSays(port: Port, message: Message)
    | PageGone(port: Port)

  const INITIAL := State({}, map[], 0, map[], [], [])

  /** `finish`: the first answer wins and removes the flow. */
  function Finish(s: State, id: Id, answer: Answer, said: Option<Message>): State {
    if id !in s.live || id !in s.flows || s.flows[id].done then s
    else
      s.(live := s.live - {id}, flows := s.flows[id := s.flows[id].(done := true)],
         replies := s.replies + [Reply(id, s.flows[id].caller, answer, said)])
  }

  predicate MayAttach(s: State, port: Port) {
    && port in s.pages && !s.pages[port].disconnected
    && s.pages[port].request in s.flows
    && var flow := s.flows[s.pages[port].request];
       !flow.done && flow.child.None? && flow.window.Some? && s.pages[port].window == flow.window
  }

  predicate IsChild(s: State, port: Port) {
    port in s.pages && s.pages[port].request in s.flows && s.flows[s.pages[port].request].child == Some(port)
  }

  function Step(s: State, e: Event): State {
    match e
    case CallerAsks(caller) =>
      if |s.live| >= MAX_FLOWS then s
      else
        s.(live := s.live + {s.nextId}, flows := s.flows[s.nextId := Flow(caller, None, None, false)],
           nextId := s.nextId + 1)
    case CallerGone(id) => Finish(s, id, Cancelled, None)
    case WindowOpens(id, window) =>
      if id in s.flows && s.flows[id].window.None?
      then s.(flows := s.flows[id := s.flows[id].(window := Some(window))])
      else s
    case WindowFails(id) => if id in s.flows && s.flows[id].window.None? then Finish(s, id, Cancelled, None) else s
    case WindowCloses(window, id) =>
      if id in s.flows && s.flows[id].window == Some(window) then Finish(s, id, Cancelled, None) else s
    case TimesOut(id) => Finish(s, id, Cancelled, None)
    case PageConnects(port, request, tabWindow) =>
      if port in s.pages || request !in s.live then s
      else s.(pages := s.pages[port := Page(request, tabWindow, false)])
    case PageAttaches(port) =>
      if !MayAttach(s, port) then s
      else
        var id := s.pages[port].request;
        s.(flows := s.flows[id := s.flows[id].(child := Some(port))], sent := s.sent + [Sent(id, port)])
    case PageSays(port, message) =>
      if !IsChild(s, port) || message == Ping then s
      else
        Finish(s, s.pages[port].request,
               match message
               case ErrorMessage => Cancelled
               case BadMessage => Invalid
               case _ => Result(port),
               Some(message))
    case PageGone(port) =>
      if port !in s.pages then s
      else
        var s1 := s.(pages := s.pages[port := s.pages[port].(disconnected := true)]);
        if IsChild(s, port) then Finish(s1, s.pages[port].request, Cancelled, None) else s1
  }

  function Run(events: seq<Event>): State {
    if events == [] then INITIAL else Step(Run(events[..|events| - 1]), events[|events| - 1])
  }

  lemma RunSnoc(events: seq<Event>, e: Event)
    ensures Run([]) == INITIAL && Run(events + [e]) == Step(Run(events), e)
  {
    assert (events + [e])[..|events|] == events;
  }

  // ---------- The invariant ----------

  ghost predicate FlowOk(s: State, id: Id) {
    && id < s.nextId && id in s.flows
    && (id in s.live <==> !s.flows[id].done)
    && (s.flows[id].child.Some? ==>
          && s.flows[id].child.value in s.pages
          && s.pages[s.flows[id].child.value].request == id
          && s.flows[id].window.Some?
          && s.pages[s.flows[id].child.value].window == s.flows[id].window)
  }

  /** A result answers a good message and nothing else, and the complaint a bad one. */
  predicate AnswersMessage(r: Reply) {
    && (r.answer.Result? <==> r.said == Some(GoodMessage))
    && (r.answer == Invalid <==> r.said == Some(BadMessage))
    && (r.answer == Cancelled <==> r.said == None || r.said == Some(ErrorMessage))
  }

  /** A relayed result comes from the flow's child, which is in the flow's own window. */
  ghost predicate ReplyOk(s: State, r: Reply) {
    && r.id in s.flows && s.flows[r.id].done && s.flows[r.id].caller == r.caller && r.id !in s.live
    && AnswersMessage(r)
    && (r.answer.Result? ==>
          && s.flows[r.id].child == Some(r.answer.source)
          && r.answer.source in s.pages
          && s.flows[r.id].window.Some? && s.pages[r.answer.source].window == s.flows[r.id].window)
  }

  ghost predicate Inv(s: State) {
    && |s.live| <= MAX_FLOWS
    && s.live <= s.flows.Keys
    && (forall id {:trigger FlowOk(s, id)} :: id in s.flows ==> FlowOk(s, id))
    && (forall i {:trigger ReplyOk(s, s.replies[i])} :: 0 <= i < |s.replies| ==> ReplyOk(s, s.replies[i]))
    && (forall i, j :: 0 <= i < j < |s.replies| ==> s.replies[i].id != s.replies[j].id)
    && (forall i :: 0 <= i < |s.sent| ==>
          s.sent[i].id in s.flows && s.flows[s.sent[i].id].child == Some(s.sent[i].child))
    && (forall i, j :: 0 <= i < j < |s.sent| ==> s.sent[i].id != s.sent[j].id)
  }

  lemma FinishKeeps(s: State, id: Id, answer: Answer, said: Option<Message>)
    requires Inv(s) && AnswersMessage(Reply(id, 0, answer, said))
    requires answer.Result? ==> id in s.flows && s.flows[id].child == Some(answer.source)
    ensures Inv(Finish(s, id, answer, said))
  {
    var t := Finish(s, id, answer, said);
    if t != s {
      assert FlowOk(s, id);
      forall other | other in t.flows ensures FlowOk(t, other) {
        assert FlowOk(s, other);
      }
      forall i | 0 <= i < |s.replies| ensures ReplyOk(t, s.replies[i]) && s.replies[i].id != id {
        assert ReplyOk(s, s.replies[i]);
      }
      assert ReplyOk(t, t.replies[|s.replies|]);
    }
  }

  /** A step that changes one flow's window or child, or the pages, and nothing the rest relies on. */
  ghost predicate Refines(s: State, t: State) {
    && t.live == s.live && t.replies == s.replies && t.nextId == s.nextId
    && t.flows.Keys == s.flows.Keys
    && (forall id :: id in s.flows ==>
          && t.flows[id].caller == s.flows[id].caller && t.flows[id].done == s.flows[id].done
          && (s.flows[id].child.Some? ==> t.flows[id].child == s.flows[id].child)
          && (s.flows[id].window.Some? ==> t.flows[id].window == s.flows[id].window))
    && (forall p :: p in s.pages ==>
          p in t.pages && t.pages[p].request == s.pages[p].request && t.pages[p].window == s.pages[p].window)
  }

  lemma RefineKeeps(s: State, t: State)
    requires Inv(s) && Refines(s, t)
    requires forall id :: id in t.flows ==> FlowOk(t, id)
    requires forall i :: 0 <= i < |t.sent| ==>
               t.sent[i].id in t.flows && t.flows[t.sent[i].id].child == Some(t.sent[i].child)
    requires forall i, j :: 0 <= i < j < |t.sent| ==> t.sent[i].id != t.sent[j].id
    ensures Inv(t)
  {
    forall i | 0 <= i < |t.replies| ensures ReplyOk(t, t.replies[i]) {
      assert ReplyOk(s, s.replies[i]);
      assert FlowOk(s, s.replies[i].id);
    }
  }

  lemma AskKeeps(s: State, caller: Port)
    requires Inv(s)
    ensures Inv(Step(s, CallerAsks(caller)))
  {
    var t := Step(s, CallerAsks(caller));
    if t != s {
      forall id | id in t.flows ensures FlowOk(t, id) {
        if id != s.nextId { assert FlowOk(s, id); }
      }
      forall i | 0 <= i < |t.replies| ensures ReplyOk(t, t.replies[i]) {
        assert ReplyOk(s, s.replies[i]) && FlowOk(s, s.replies[i].id);
      }
      forall i | 0 <= i < |t.sent|
        ensures t.sent[i].id in t.flows && t.flows[t.sent[i].id].child == Some(t.sent[i].child)
      {
        assert FlowOk(s, s.sent[i].id);
      }
    }
  }

  lemma PagesKeep(s: State, t: State)
    requires Inv(s) && t == s.(pages := t.pages) && Refines(s, t)
    ensures Inv(t)
  {
    forall id | id in t.flows ensures FlowOk(t, id) { assert FlowOk(s, id); }
    RefineKeeps(s, t);
  }

  lemma StepKeeps(s: State, e: Event)
    requires Inv(s)
    ensures Inv(Step(s, e))
  {
    match e
    case CallerAsks(caller) => AskKeeps(s, caller);
    case CallerGone(id) => FinishKeeps(s, id, Cancelled, None);
    case WindowOpens(id, window) => OpenKeeps(s, id, window);
    case WindowFails(id) => FinishKeeps(s, id, Cancelled, None);
    case WindowCloses(window, id) => FinishKeeps(s, id, Cancelled, None);
    case TimesOut(id) => FinishKeeps(s, id, Cancelled, None);
    case PageConnects(port, request, tabWindow) => PagesKeep(s, Step(s, e));
    case PageAttaches(port) => AttachKeeps(s, port);
    case PageSays(port, message) =>
      if IsChild(s, port) && message != Ping {
        FinishKeeps(s, s.pages[port].request,
                    match message
                    case ErrorMessage => Cancelled
                    case BadMessage => Invalid
                    case _ => Result(port),
                    Some(message));
      }
    case PageGone(port) => GoneKeeps(s, port);
  }

  lemma OpenKeeps(s: State, id: Id, window: Window)
    requires Inv(s)
    ensures Inv(Step(s, WindowOpens(id, window)))
  {
    var t := Step(s, WindowOpens(id, window));
    forall other | other in t.flows ensures FlowOk(t, other) { assert FlowOk(s, other); }
    RefineKeeps(s, t);
  }

  lemma GoneKeeps(s: State, port: Port)
    requires Inv(s)
    ensures Inv(Step(s, PageGone(port)))
  {
    if port in s.pages {
      var t := s.(pages := s.pages[port := s.pages[port].(disconnected := true)]);
      PagesKeep(s, t);
      FinishKeeps(t, s.pages[port].request, Cancelled, None);
    }
  }

  lemma AttachKeeps(s: State, port: Port)
    requires Inv(s)
    ensures Inv(Step(s, PageAttaches(port)))
  {
    var t := Step(s, PageAttaches(port));
    if MayAttach(s, port) {
      var id := s.pages[port].request;
      forall other | other in t.flows ensures FlowOk(t, other) { assert FlowOk(s, other); }
      assert forall i :: 0 <= i < |s.sent| ==> s.sent[i].id != id;
      RefineKeeps(s, t);
    }
  }

  lemma {:induction false} RunKeeps(events: seq<Event>)
    ensures Inv(Run(events))
  {
    if events != [] {
      var init, last := events[..|events| - 1], events[|events| - 1];
      RunKeeps(init);
      StepKeeps(Run(init), last);
      assert init + [last] == events;
      RunSnoc(init, last);
    }
  }

  /** In every run: at most eight live flows; each flow answers its caller at most once and is gone
      when it has; at most one page gets its request; and a relayed result comes from that page, in
      the window opened for the flow. */
  lemma RelayIsExact(events: seq<Event>)
    ensures
      var s := Run(events);
      && |s.live| <= 8
      && (forall i, j :: 0 <= i < j < |s.replies| ==> s.replies[i].id != s.replies[j].id)
      && (forall i :: 0 <= i < |s.replies| ==> s.replies[i].id !in s.live && ReplyOk(s, s.replies[i]))
      && (forall i :: 0 <= i < |s.replies| ==> AnswersMessage(s.replies[i]))
      && (forall i, j :: 0 <= i < j < |s.sent| ==> s.sent[i].id != s.sent[j].id)
      && (forall i, j :: 0 <= i < |s.replies| && 0 <= j < |s.sent| ==>
            s.replies[i].answer.Result? && s.sent[j].id == s.replies[i].id ==>
              s.sent[j].child == s.replies[i].answer.source)
  {
    RunKeeps(events);
    var s := Run(events);
    forall i | 0 <= i < |s.replies| ensures ReplyOk(s, s.replies[i]) {
    }
  }

  // ---------- What becomes of a flow ----------

  /** The flow has just been cancelled, and that is all that happened to it. */
  ghost predicate CancelledNow(s: State, t: State, id: Id, said: Option<Message>) {
    id in s.flows && t.replies == s.replies + [Reply(id, s.flows[id].caller, Cancelled, said)]
  }

  /** What ends a flow without a result: its caller goes, its window fails or closes, its time is up, or
      its page goes. */
  ghost predicate Cancels(s: State, e: Event, id: Id)
    requires id in s.flows
  {
    || e == CallerGone(id) || e == TimesOut(id)
    || (e == WindowFails(id) && s.flows[id].window.None?)
    || (s.flows[id].window.Some? && e == WindowCloses(s.flows[id].window.value, id))
    || (s.flows[id].child.Some? && e == PageGone(s.flows[id].child.value))
  }

  /** A live flow is answered exactly by what cancels it and by what its own page says. */
  lemma AnsweredExactly(s: State, e: Event, id: Id)
    requires Inv(s) && id in s.live
    ensures id in s.flows
    ensures Cancels(s, e, id) ==> CancelledNow(s, Step(s, e), id, None) && id !in Step(s, e).live
    ensures !Cancels(s, e, id) ==>
              (id !in Step(s, e).live <==>
                 e.PageSays? && e.message != Ping && s.flows[id].child == Some(e.port))
  {
    assert FlowOk(s, id);
    forall other | other in s.flows ensures FlowOk(s, other) {
    }
  }

  /** A caller whose window opens, and whose page connects from that window and answers, gets the result
      of that page, and the page gets the request. */
  lemma FlowCompletes(s: State, caller: Port, window: Window, page: Port)
    requires Inv(s) && |s.live| < 8 && page !in s.pages
    ensures
      var id := s.nextId;
      var asked := Step(Step(s, CallerAsks(caller)), WindowOpens(id, window));
      var attached := Step(Step(asked, PageConnects(page, id, Some(window))), PageAttaches(page));
      var answered := Step(attached, PageSays(page, GoodMessage));
      && asked.live == s.live + {id} && asked.flows[id] == Flow(caller, None, Some(window), false)
      && attached.sent == s.sent + [Sent(id, page)] && attached.live == s.live + {id}
      && answered.replies == s.replies + [Reply(id, caller, Result(page), Some(GoodMessage))]
      && answered.live == s.live && answered.nextId == id + 1
  {
    var id := s.nextId;
    assert id in s.flows ==> FlowOk(s, id);
    var a := Step(s, CallerAsks(caller));
    assert a.flows[id] == Flow(caller, None, None, false);
    var b := Step(a, WindowOpens(id, window));
    assert b.flows[id] == Flow(caller, None, Some(window), false) && b.live == s.live + {id};
    var c := Step(b, PageConnects(page, id, Some(window)));
    assert c.pages[page] == Page(id, Some(window), false);
    var d := Step(c, PageAttaches(page));
    assert d.flows[id].child == Some(page);
    assert s.live + {id} - {id} == s.live;
  }
}
