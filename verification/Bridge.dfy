/**
 The bridge between the wallet page and its host, during one page life: the page queues requests, the
 host's timer drains the queue by running a script, and answers come back as posted messages.
 */
module Bridge {
  import opened Bytes

  datatype Request = Request(id: nat, moduleName: string, methodName: string, args: string)

  /** A posted message: an error when one is given, otherwise a result. */
  datatype Message = Message(id: nat, result: string, error: Option<string>)

  type Outcome = Result<string, string>

  function OutcomeOf(m: Message): Outcome {
    if m.error.Some? then Err(m.error.value) else Ok(m.result)
  }

  // ---- the page ---------------------------------------------------------------------------------

  /** Closure variables of the injected script, and how each promise was settled. */
  datatype Page = Page(outbox: seq<Request>, pending: set<nat>, seqNo: nat, settled: map<nat, Outcome>)

  function Called(p: Page, moduleName: string, methodName: string, args: string): Page {
    var id := p.seqNo + 1;
    p.(seqNo := id, pending := p.pending + {id}, outbox := p.outbox + [Request(id, moduleName, methodName, args)])
  }

  function Drained(p: Page): Page {
    p.(outbox := [])
  }

  function Answered(p: Page, m: Message): Page {
    if m.id !in p.pending then p
    else p.(pending := p.pending - {m.id}, settled := p.settled[m.id := OutcomeOf(m)])
  }

  class LogosBridge {
    var outbox: seq<Request>
    var pending: set<nat>
    var seqNo: nat
    var settled: map<nat, Outcome>

    function State(): Page
      reads this
    {
      Page(outbox, pending, seqNo, settled)
    }

    constructor ()
      ensures State() == Page([], {}, 0, map[])
    {
      outbox, pending, seqNo, settled := [], {}, 0, map[];
    }

    method CallModuleAsync(moduleName: string, methodName: string, args: string) returns (requestId: nat)
      modifies this
      ensures State() == Called(old(State()), moduleName, methodName, args) && requestId == seqNo
    {
      seqNo := seqNo + 1;
      requestId := seqNo;
      pending := pending + {requestId};
      outbox := outbox + [Request(requestId, moduleName, methodName, args)];
    }

    method Drain() returns (q: seq<Request>)
      modifies this
      ensures q == old(outbox) && State() == Drained(old(State()))
    {
      q := outbox;
      outbox := [];
    }

    /** Messages of another type are ignored before this. */
    method OnMessage(m: Message)
      modifies this
      ensures State() == Answered(old(State()), m)
    {
      if m.id !in pending {
        return;
      }
      pending := pending - {m.id};
      if m.error.Some? {
        settled := settled[m.id := Err(m.error.value)];
      } else {
        settled := settled[m.id := Ok(m.result)];
      }
    }
  }

  // ---- the host's drain pump -----------------------------------------------------------------------

  /** The flag of the view, the scripts it has running, and the requests it has passed on, in order. */
  class DrainPump {
    var requestDrainInFlight: bool
    var running: nat
    var handled: seq<Request>

    constructor ()
      ensures !requestDrainInFlight && running == 0 && handled == []
    {
      requestDrainInFlight, running, handled := false, 0, [];
    }

    predicate Valid()
      reads this
    {
      running == if requestDrainInFlight then 1 else 0
    }

    /** The timer: nothing while the page loads or a drain is out; a script that cannot start clears the flag. */
    method OnTriggered(pageLoaded: bool, loading: bool, starts: bool)
      requires Valid()
      modifies this
      ensures Valid() && handled == old(handled)
      ensures running == if old(running) == 0 && pageLoaded && !loading && starts then 1 else old(running)
    {
      if !pageLoaded || requestDrainInFlight || loading {
        return;
      }
      requestDrainInFlight := true;
      if starts {
        running := running + 1;
      } else {
        requestDrainInFlight := false;
      }
    }

    /** The script's result arrives; every request in it is passed on, in order. */
    method OnResult(result: seq<Request>)
      requires Valid() && running == 1
      modifies this
      ensures Valid() && running == 0 && handled == old(handled) + result
    {
      running := running - 1;
      requestDrainInFlight := false;
      var i := 0;
      while i < |result|
        invariant 0 <= i <= |result| && Valid() && running == 0 && handled == old(handled) + result[..i]
      {
        handled := handled + [result[i]];
        assert result[..i + 1] == result[..i] + [result[i]];
        i := i + 1;
      }
      assert result[..i] == result;
    }
  }

  // ---- page and host together ---------------------------------------------------------------------

  /** A drain the host started: its script has not run yet, or ran and its batch is on its way back. */
  datatype Drain = Asked | Fetched(batch: seq<Request>)

  datatype World = World(
    page: Page, inFlight: bool, drains: seq<Drain>, handled: seq<Request>, posted: seq<Message>, made: seq<Request>)

  datatype Move =
    | Call(moduleName: string, methodName: string, args: string)
    | Trigger(starts: bool)                 // the timer fires
    | RunScript(k: nat)                     // a started script runs in the page
    | Return(k: nat)                        // its batch reaches the host
    | Post(message: Message)                // the backend answers, perhaps again
    | Deliver(k: nat)                       // a posted message reaches the page

  predicate HandledId(w: World, id: nat) {
    exists k :: 0 <= k < |w.handled| && w.handled[k].id == id
  }

  /** The host answers only requests it was handed. */
  predicate Enabled(w: World, m: Move) {
    match m
    case Call(_, _, _) => true
    case Trigger(_) => true
    case RunScript(k) => k < |w.drains| && w.drains[k] == Asked
    case Return(k) => k < |w.drains| && w.drains[k].Fetched?
    case Post(message) => HandledId(w, message.id)
    case Deliver(k) => k < |w.posted|
  }

  function Without<T>(s: seq<T>, k: nat): seq<T>
    requires k < |s|
  {
    s[..k] + s[k + 1..]
  }

  function Step(w: World, m: Move): World
    requires Enabled(w, m)
  {
    match m
    case Call(a, b, c) =>
      w.(page := Called(w.page, a, b, c), made := w.made + [Request(w.page.seqNo + 1, a, b, c)])
    case Trigger(starts) =>
      if w.inFlight || !starts then w else w.(inFlight := true, drains := w.drains + [Asked])
    case RunScript(k) =>
      w.(page := Drained(w.page), drains := w.drains[k := Fetched(w.page.outbox)])
    case Return(k) =>
      w.(inFlight := false, drains := Without(w.drains, k), handled := w.handled + w.drains[k].batch)
    case Post(message) => w.(posted := w.posted + [message])
    case Deliver(k) => w.(page := Answered(w.page, w.posted[k]), posted := Without(w.posted, k))
  }

  function Initial(): World {
    World(Page([], {}, 0, map[]), false, [], [], [], [])
  }

  predicate ValidRun(w: World, moves: seq<Move>)
    decreases |moves|
  {
    moves == [] || (Enabled(w, moves[0]) && ValidRun(Step(w, moves[0]), moves[1..]))
  }

  function Final(w: World, moves: seq<Move>): World
    requires ValidRun(w, moves)
    decreases |moves|
  {
    if moves == [] then w else Final(Step(w, moves[0]), moves[1..])
  }

  /** Requests taken from the page whose batch has not reached the host. */
  function Travelling(w: World): seq<Request> {
    if |w.drains| == 1 && w.drains[0].Fetched? then w.drains[0].batch else []
  }

  /** Requests are numbered 1, 2, 3, … as they were made. */
  predicate Numbered(rs: seq<Request>) {
    forall k :: 0 <= k < |rs| ==> rs[k].id == k + 1
  }

  ghost predicate Inv(w: World) {
    && |w.drains| == (if w.inFlight then 1 else 0)
    && w.made == w.handled + Travelling(w) + w.page.outbox
    && Numbered(w.made) && w.page.seqNo == |w.made|
    && (forall id :: id in w.page.pending <==> 1 <= id <= w.page.seqNo && id !in w.page.settled)
    && (forall id :: id in w.page.settled ==> 1 <= id <= |w.handled|)
    && (forall k :: 0 <= k < |w.posted| ==> 1 <= w.posted[k].id <= |w.handled|)
  }

  /** The host has exactly the requests with the lowest numbers. */
  lemma HandledIsPrefix(w: World, id: nat)
    requires Inv(w)
    ensures HandledId(w, id) <==> 1 <= id <= |w.handled|
  {
    assert forall k :: 0 <= k < |w.handled| ==> w.made[k] == w.handled[k];
    if 1 <= id <= |w.handled| {
      assert w.handled[id - 1].id == id;
    }
  }

  lemma CallKeeps(w: World, m: Move)
    requires Inv(w) && m.Call?
    ensures Inv(Step(w, m))
  {
    var t := Step(w, m);
    Assoc(w.handled + Travelling(w), w.page.outbox, [Request(w.page.seqNo + 1, m.moduleName, m.methodName, m.args)]);
    assert Travelling(t) == Travelling(w);
  }

  lemma DrainKeeps(w: World, m: Move)
    requires Inv(w) && Enabled(w, m) && (m.Trigger? || m.RunScript? || m.Return?)
    ensures Inv(Step(w, m))
  {
    var t := Step(w, m);
    if m.RunScript? {
      assert t.drains == [Fetched(w.page.outbox)];
      assert w.handled + [] + w.page.outbox == w.handled + w.page.outbox + [];
    } else if m.Return? {
      assert w.drains == [w.drains[0]] && t.drains == [];
      assert w.handled + w.drains[0].batch + w.page.outbox == (w.handled + w.drains[0].batch) + [] + w.page.outbox;
    }
  }

  lemma MessageKeeps(w: World, m: Move)
    requires Inv(w) && Enabled(w, m) && (m.Post? || m.Deliver?)
    ensures Inv(Step(w, m))
  {
    if m.Post? {
      HandledIsPrefix(w, m.message.id);
    }
  }

  lemma MoveKeepsInv(w: World, m: Move)
    requires Inv(w) && Enabled(w, m)
    ensures Inv(Step(w, m))
  {
    if m.Call? {
      CallKeeps(w, m);
    } else if m.Post? || m.Deliver? {
      MessageKeeps(w, m);
    } else {
      DrainKeeps(w, m);
    }
  }

  lemma {:induction false} RunKeepsInv(w: World, moves: seq<Move>)
    requires Inv(w) && ValidRun(w, moves)
    ensures Inv(Final(w, moves))
    decreases |moves|
  {
    if moves != [] {
      MoveKeepsInv(w, moves[0]);
      RunKeepsInv(Step(w, moves[0]), moves[1..]);
    }
  }

  predicate InOutbox(w: World, id: nat) {
    exists k :: 0 <= k < |w.page.outbox| && w.page.outbox[k].id == id
  }

  predicate Taken(w: World, id: nat) {
    exists k :: 0 <= k < |w.handled + Travelling(w)| && (w.handled + Travelling(w))[k].id == id
  }

  /**
   In every run of one page life: at most one drain is out; the requests the host was handed, those on
   their way and those still queued are together all requests made, each once and in the order they were
   numbered; and every id is in exactly one of three places: queued, taken but unanswered, or settled.
   Pending are exactly the first two.
   */
  lemma Conservation(moves: seq<Move>, id: nat)
    requires ValidRun(Initial(), moves)
    ensures var w := Final(Initial(), moves);
            && |w.drains| <= 1
            && w.handled + Travelling(w) + w.page.outbox == w.made && Numbered(w.made)
            && (1 <= id <= |w.made| <==> InOutbox(w, id) || Taken(w, id))
            && !(InOutbox(w, id) && Taken(w, id)) && !(InOutbox(w, id) && id in w.page.settled)
            && (id in w.page.settled ==> Taken(w, id))
            && (id in w.page.pending <==> InOutbox(w, id) || (Taken(w, id) && id !in w.page.settled))
  {
    var w := Final(Initial(), moves);
    RunKeepsInv(Initial(), moves);
    Places(w, id);
  }

  /** Where an id is follows from its number. */
  lemma Places(w: World, id: nat)
    requires Inv(w)
    ensures var n := |w.handled + Travelling(w)|;
            (Taken(w, id) <==> 1 <= id <= n) && (InOutbox(w, id) <==> n < id <= |w.made|)
  {
    var taken := w.handled + Travelling(w);
    assert w.made == taken + w.page.outbox;
    assert forall k :: 0 <= k < |taken| ==> w.made[k] == taken[k];
    assert forall k :: 0 <= k < |w.page.outbox| ==> w.made[|taken| + k] == w.page.outbox[k];
    if 1 <= id <= |taken| {
      assert taken[id - 1].id == id;
    } else if |taken| < id <= |w.made| {
      assert w.page.outbox[id - 1 - |taken|].id == id;
    }
  }

  /** A message settles at most the request with its own number; a duplicate changes nothing in the page. */
  lemma DeliverSettlesOne(p: Page, m: Message, id: nat)
    ensures var q := Answered(p, m);
            && (id != m.id ==> (id in q.pending <==> id in p.pending) && (id in q.settled <==> id in p.settled)
                               && (id in p.settled ==> q.settled[id] == p.settled[id]))
            && (m.id in p.pending ==>
                  m.id !in q.pending && m.id in q.settled
                  && q.settled[m.id] == if m.error == None then Ok(m.result) else Err(m.error.value))
            && Answered(q, m) == q
  {
  }

  /** Once settled, a request keeps its outcome for the rest of the page life, whatever else is posted. */
  lemma {:induction false} SettledForGood(w: World, moves: seq<Move>, id: nat)
    requires Inv(w) && ValidRun(w, moves) && id in w.page.settled
    ensures id in Final(w, moves).page.settled && Final(w, moves).page.settled[id] == w.page.settled[id]
    decreases |moves|
  {
    if moves != [] {
      MoveKeepsInv(w, moves[0]);
      SettledForGood(Step(w, moves[0]), moves[1..], id);
    }
  }

  /** A request the backend answered, once that answer is delivered first, is settled with it. */
  lemma AnsweredSettles(w: World, k: nat)
    requires Inv(w) && k < |w.posted| && w.posted[k].id !in w.page.settled
    ensures var t := Step(w, Deliver(k)).page;
            && w.posted[k].id in t.settled
            && t.settled[w.posted[k].id]
               == if w.posted[k].error == None then Ok(w.posted[k].result) else Err(w.posted[k].error.value)
  {
  }
}
