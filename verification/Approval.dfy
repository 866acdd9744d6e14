/**
 The approval gate: calls running concurrently, each asking for confirmation or passing on a session
 grant. Every await is a point where other calls may move; the clock never goes back.
 */
module Approval {
  import opened Bytes

  const SESSION_TTL_MS := 15 * 60 * 1000

  // ---- session grants -----------------------------------------------------------------------------

  /** A grant is used up to and including its expiry; a later look drops it. */
  function Live(grants: map<string, nat>, scope: string, now: nat): Option<nat> {
    if scope in grants && grants[scope] >= now then Some(grants[scope]) else None
  }

  function AfterLook(grants: map<string, nat>, scope: string, now: nat): map<string, nat> {
    if scope in grants && grants[scope] < now then grants - {scope} else grants
  }

  class MemorySessionStore {
    var grants: map<string, nat>

    constructor ()
      ensures grants == map[]
    {
      grants := map[];
    }

    method Get(scope: string, now: nat) returns (exp: Option<nat>)
      modifies this
      ensures exp == Live(old(grants), scope, now) && grants == AfterLook(old(grants), scope, now)
    {
      if scope !in grants {
        return None;
      }
      if grants[scope] < now {
        grants := grants - {scope};
        return None;
      }
      exp := Some(grants[scope]);
    }

    method Set(scope: string, expiresAt: nat)
      modifies this
      ensures grants == old(grants)[scope := expiresAt]
    {
      grants := grants[scope := expiresAt];
    }
  }

  // ---- calls in flight ----------------------------------------------------------------------------

  datatype Op =
    | Transfer(from: string, to: string, amount: string)
    | ProgramCall(program: string, data: string, accounts: seq<(string, string)>, payer: Option<string>)

  /** Where a call waits: for the session lookup, for the user, to record a grant, to reach the backend. */
  datatype Stage = Checking | Asking | Granting | Ready | Finished

  datatype Event =
    | Confirmed(id: nat) | Rejected(id: nat) | Hit(id: nat, at: nat) | Granted(id: nat, at: nat) | Inner(id: nat)

  datatype State = State(now: nat, ops: seq<Op>, stages: seq<Stage>, grants: map<string, nat>, trace: seq<Event>)

  datatype Move =
    | Tick(to: nat) | Start(op: Op) | Check(id: nat) | Answer(id: nat, yes: bool) | Grant(id: nat) | Call(id: nat)
    | Drop(id: nat)       // something awaited failed

  function Scope(op: Op): string {
    if op.ProgramCall? then "program_call:" + op.program else ""
  }

  predicate Enabled(s: State, m: Move) {
    match m
    case Tick(t) => t >= s.now
    case Start(_) => true
    case Check(id) => id < |s.stages| && s.stages[id] == Checking
    case Answer(id, _) => id < |s.stages| && s.stages[id] == Asking
    case Grant(id) => id < |s.stages| && s.stages[id] == Granting
    case Call(id) => id < |s.stages| && s.stages[id] == Ready
    case Drop(id) => id < |s.stages| && s.stages[id] != Finished
  }

  /** A confirmed transfer goes on to the backend; a confirmed program call first records its grant. */
  function AfterYes(op: Op): Stage {
    if op.Transfer? then Ready else Granting
  }

  function Step(s: State, m: Move): State
    requires |s.ops| == |s.stages| && Enabled(s, m)
  {
    match m
    case Tick(t) => s.(now := t)
    case Start(op) => s.(ops := s.ops + [op], stages := s.stages + [if op.Transfer? then Asking else Checking])
    case Check(id) =>
      var scope := Scope(s.ops[id]);
      var hit := Live(s.grants, scope, s.now).Some?;
      s.(stages := s.stages[id := if hit then Ready else Asking],
         grants := AfterLook(s.grants, scope, s.now),
         trace := if hit then s.trace + [Hit(id, s.now)] else s.trace)
    case Answer(id, yes) =>
      s.(stages := s.stages[id := if yes then AfterYes(s.ops[id]) else Finished],
         trace := s.trace + [if yes then Confirmed(id) else Rejected(id)])
    case Grant(id) =>
      s.(stages := s.stages[id := Ready],
         grants := s.grants[Scope(s.ops[id]) := s.now + SESSION_TTL_MS],
         trace := s.trace + [Granted(id, s.now)])
    case Call(id) =>
      s.(stages := s.stages[id := Finished], trace := s.trace + [Inner(id)])
    case Drop(id) => s.(stages := s.stages[id := Finished])
  }

  function Initial(now: nat): State {
    State(now, [], [], map[], [])
  }

  ghost predicate ValidRun(s: State, moves: seq<Move>)
    decreases |moves|
  {
    moves == [] ||
    (|s.ops| == |s.stages| && Enabled(s, moves[0]) && ValidRun(Step(s, moves[0]), moves[1..]))
  }

  function Final(s: State, moves: seq<Move>): State
    requires ValidRun(s, moves)
    decreases |moves|
  {
    if moves == [] then s else Final(Step(s, moves[0]), moves[1..])
  }

  // ---- what a trace must look like ------------------------------------------------------------------

  predicate ConfirmedBefore(trace: seq<Event>, id: nat, k: nat)
    requires k <= |trace|
  {
    exists j :: 0 <= j < k && trace[j] == Confirmed(id)
  }

  predicate SameProgram(ops: seq<Op>, a: nat, b: nat) {
    a < |ops| && b < |ops| && ops[a].ProgramCall? && ops[b].ProgramCall? && ops[a].program == ops[b].program
  }

  /** Event g is a grant, by a call that was confirmed before it. */
  predicate OwnGrant(trace: seq<Event>, g: nat) {
    g < |trace| && trace[g].Granted? && ConfirmedBefore(trace, trace[g].id, g)
  }

  /** Event h passes a session check at most 15 minutes after an earlier grant to a call of the same program. */
  predicate Covered(ops: seq<Op>, trace: seq<Event>, h: nat) {
    h < |trace| && trace[h].Hit? && exists g :: 0 <= g < h && CoveredBy(ops, trace, h, g)
  }

  predicate CoveredBy(ops: seq<Op>, trace: seq<Event>, h: nat, g: nat)
    requires h < |trace| && trace[h].Hit?
  {
    OwnGrant(trace, g) && SameProgram(ops, trace[h].id, trace[g].id)
    && trace[g].at <= trace[h].at <= trace[g].at + 900_000
  }

  /** A call reached the backend after its own confirmation, or, if it calls a program, after a covered check. */
  predicate Justified(ops: seq<Op>, trace: seq<Event>, id: nat, k: nat)
    requires k <= |trace|
  {
    ConfirmedBefore(trace, id, k)
    || (id < |ops| && ops[id].ProgramCall?
        && exists h :: 0 <= h < k && trace[h].Hit? && trace[h].id == id && Covered(ops, trace, h))
  }

  /** A grant in the store is 15 minutes after a recording of it, by a confirmed call of that program. */
  predicate GrantExplained(ops: seq<Op>, trace: seq<Event>, scope: string, expiry: nat, now: nat) {
    exists g :: 0 <= g < |trace| && Explains(ops, trace, g, scope, expiry, now)
  }

  predicate Explains(ops: seq<Op>, trace: seq<Event>, g: nat, scope: string, expiry: nat, now: nat) {
    && OwnGrant(trace, g) && trace[g].id < |ops| && ops[trace[g].id].ProgramCall? && Scope(ops[trace[g].id]) == scope
    && expiry == trace[g].at + SESSION_TTL_MS && trace[g].at <= now
  }

  predicate StageOk(s: State, id: nat)
    requires id < |s.ops| == |s.stages|
  {
    && (s.stages[id] == Checking ==> s.ops[id].ProgramCall?)
    && (s.stages[id] == Granting ==> s.ops[id].ProgramCall? && ConfirmedBefore(s.trace, id, |s.trace|))
    && (s.stages[id] == Ready ==> Justified(s.ops, s.trace, id, |s.trace|))
    && (s.stages[id] != Finished ==> Inner(id) !in s.trace)
  }

  predicate EventOk(ops: seq<Op>, trace: seq<Event>, k: nat)
    requires k < |trace|
  {
    trace[k].Inner? ==> trace[k].id < |ops| && Justified(ops, trace, trace[k].id, k)
                        && forall j :: 0 <= j < |trace| && trace[j] == trace[k] ==> j == k
  }

  predicate Inv(s: State) {
    && |s.ops| == |s.stages|
    && (forall id :: 0 <= id < |s.ops| ==> StageOk(s, id))
    && (forall k :: 0 <= k < |s.trace| ==> EventOk(s.ops, s.trace, k))
    && (forall scope :: scope in s.grants ==> GrantExplained(s.ops, s.trace, scope, s.grants[scope], s.now))
    && (forall k :: 0 <= k < |s.trace| ==> s.trace[k].id < |s.ops|)
  }

  // ---- growing the trace keeps what was shown -------------------------------------------------------

  lemma ConfirmedMore(trace: seq<Event>, id: nat, k: nat, more: seq<Event>)
    requires k <= |trace| && ConfirmedBefore(trace, id, k)
    ensures ConfirmedBefore(trace + more, id, k)
  {
    var j :| 0 <= j < k && trace[j] == Confirmed(id);
    assert (trace + more)[j] == Confirmed(id);
  }

  lemma GrantMore(trace: seq<Event>, g: nat, more: seq<Event>)
    requires OwnGrant(trace, g)
    ensures OwnGrant(trace + more, g)
  {
    ConfirmedMore(trace, trace[g].id, g, more);
  }

  lemma CoveredMore(ops: seq<Op>, trace: seq<Event>, h: nat, moreOps: seq<Op>, more: seq<Event>)
    requires Covered(ops, trace, h)
    ensures Covered(ops + moreOps, trace + more, h)
  {
    var g :| 0 <= g < h && CoveredBy(ops, trace, h, g);
    GrantMore(trace, g, more);
    assert CoveredBy(ops + moreOps, trace + more, h, g);
  }

  lemma JustifiedMore(ops: seq<Op>, trace: seq<Event>, id: nat, k: nat, moreOps: seq<Op>, more: seq<Event>)
    requires k <= |trace| && Justified(ops, trace, id, k)
    ensures Justified(ops + moreOps, trace + more, id, k)
  {
    if ConfirmedBefore(trace, id, k) {
      ConfirmedMore(trace, id, k, more);
    } else {
      var h :| 0 <= h < k && trace[h].Hit? && trace[h].id == id && Covered(ops, trace, h);
      CoveredMore(ops, trace, h, moreOps, more);
      assert (trace + more)[h] == trace[h];
    }
  }

  lemma JustifiedLater(ops: seq<Op>, trace: seq<Event>, id: nat, k: nat, k': nat)
    requires k <= k' <= |trace| && Justified(ops, trace, id, k)
    ensures Justified(ops, trace, id, k')
  {
    if ConfirmedBefore(trace, id, k) {
      var j :| 0 <= j < k && trace[j] == Confirmed(id);
      assert ConfirmedBefore(trace, id, k');
    }
  }

  lemma ExplainedMore(ops: seq<Op>, trace: seq<Event>, scope: string, expiry: nat, now: nat, now': nat,
                      moreOps: seq<Op>, more: seq<Event>)
    requires GrantExplained(ops, trace, scope, expiry, now) && now <= now'
    ensures GrantExplained(ops + moreOps, trace + more, scope, expiry, now')
  {
    var g :| 0 <= g < |trace| && Explains(ops, trace, g, scope, expiry, now);
    GrantMore(trace, g, more);
    assert Explains(ops + moreOps, trace + more, g, scope, expiry, now');
  }

  // ---- every move keeps the invariant ---------------------------------------------------------------

  /** The part of a state a move carries over, with operations and events added at the end. */
  predicate Extends(s: State, t: State, moreOps: seq<Op>, more: seq<Event>) {
    t.ops == s.ops + moreOps && t.trace == s.trace + more && s.now <= t.now && |t.ops| == |t.stages|
  }

  lemma OldStage(s: State, t: State, id: nat, moreOps: seq<Op>, more: seq<Event>)
    requires Inv(s) && Extends(s, t, moreOps, more) && id < |s.ops| && t.stages[id] == s.stages[id]
    requires Inner(id) !in more
    ensures StageOk(t, id)
  {
    assert StageOk(s, id);
    if s.stages[id] == Granting {
      ConfirmedMore(s.trace, id, |s.trace|, more);
      var j :| 0 <= j < |s.trace| && s.trace[j] == Confirmed(id);
      assert t.trace[j] == Confirmed(id);
    }
    if s.stages[id] == Ready {
      JustifiedMore(s.ops, s.trace, id, |s.trace|, moreOps, more);
      JustifiedLater(t.ops, t.trace, id, |s.trace|, |t.trace|);
    }
  }

  lemma OldEvent(s: State, t: State, k: nat, moreOps: seq<Op>, more: seq<Event>)
    requires Inv(s) && Extends(s, t, moreOps, more) && k < |s.trace|
    requires forall e :: e in more && e.Inner? ==> e !in s.trace
    ensures EventOk(t.ops, t.trace, k)
  {
    assert EventOk(s.ops, s.trace, k);
    if s.trace[k].Inner? {
      JustifiedMore(s.ops, s.trace, s.trace[k].id, k, moreOps, more);
      assert forall j :: |s.trace| <= j < |t.trace| ==> t.trace[j] in more;
    }
  }

  lemma CheckOk(s: State, id: nat)
    requires Inv(s) && Enabled(s, Check(id)) && Live(s.grants, Scope(s.ops[id]), s.now).Some?
    ensures Justified(s.ops, s.trace + [Hit(id, s.now)], id, |s.trace| + 1)
  {
    var scope := Scope(s.ops[id]);
    var h := |s.trace|;
    var trace := s.trace + [Hit(id, s.now)];
    assert StageOk(s, id);
    var g :| 0 <= g < |s.trace| && Explains(s.ops, s.trace, g, scope, s.grants[scope], s.now);
    GrantMore(s.trace, g, [Hit(id, s.now)]);
    ScopesDiffer(s.ops[id], s.ops[s.trace[g].id]);
    assert CoveredBy(s.ops, trace, h, g);
    assert Covered(s.ops, trace, h);
  }

  lemma ScopesDiffer(a: Op, b: Op)
    requires a.ProgramCall? && b.ProgramCall? && Scope(a) == Scope(b)
    ensures a.program == b.program
  {
    assert Scope(a)[13..] == a.program && Scope(b)[13..] == b.program;
  }

  lemma GrantOk(s: State, id: nat)
    requires Inv(s) && Enabled(s, Grant(id))
    ensures var t := Step(s, Grant(id));
            GrantExplained(t.ops, t.trace, Scope(s.ops[id]), s.now + SESSION_TTL_MS, s.now)
            && Justified(t.ops, t.trace, id, |t.trace|)
  {
    var t := Step(s, Grant(id));
    var g := |s.trace|;
    assert StageOk(s, id);
    ConfirmedMore(s.trace, id, g, [Granted(id, s.now)]);
    assert OwnGrant(t.trace, g) && Explains(t.ops, t.trace, g, Scope(s.ops[id]), s.now + SESSION_TTL_MS, s.now);
    JustifiedLater(t.ops, t.trace, id, g, g + 1);
  }

  lemma GrantsKept(s: State, m: Move, moreOps: seq<Op>, more: seq<Event>)
    requires Inv(s) && Enabled(s, m) && Extends(s, Step(s, m), moreOps, more)
    ensures var t := Step(s, m);
            forall scope :: scope in t.grants ==> GrantExplained(t.ops, t.trace, scope, t.grants[scope], t.now)
  {
    var t := Step(s, m);
    forall scope | scope in t.grants
      ensures GrantExplained(t.ops, t.trace, scope, t.grants[scope], t.now)
    {
      if m.Grant? && scope == Scope(s.ops[m.id]) {
        GrantOk(s, m.id);
      } else {
        ExplainedMore(s.ops, s.trace, scope, s.grants[scope], s.now, t.now, moreOps, more);
      }
    }
  }

  /** The events a move adds. */
  function Added(s: State, m: Move): seq<Event>
    requires |s.ops| == |s.stages| && Enabled(s, m)
  {
    Step(s, m).trace[|s.trace|..]
  }

  lemma MovedStage(s: State, m: Move, id: nat)
    requires Inv(s) && Enabled(s, m) && !m.Tick? && !m.Start? && id == m.id
    ensures StageOk(Step(s, m), id)
  {
    var t := Step(s, m);
    assert StageOk(s, id);
    match m
    case Check(_) =>
      if Live(s.grants, Scope(s.ops[id]), s.now).Some? {
        CheckOk(s, id);
      }
    case Answer(_, yes) =>
      assert yes ==> t.trace[|s.trace|] == Confirmed(id);
    case Grant(_) => GrantOk(s, id);
    case Call(_) =>
    case Drop(_) =>
  }

  lemma CallOk(s: State, id: nat)
    requires Inv(s) && Enabled(s, Call(id))
    ensures var t := Step(s, Call(id)); EventOk(t.ops, t.trace, |s.trace|) && Inner(id) !in s.trace
  {
    var t := Step(s, Call(id));
    assert StageOk(s, id);
    JustifiedMore(s.ops, s.trace, id, |s.trace|, [], [Inner(id)]);
    assert s.ops + [] == s.ops;
  }

  lemma StagesKept(s: State, m: Move, moreOps: seq<Op>, more: seq<Event>)
    requires Inv(s) && Enabled(s, m) && Extends(s, Step(s, m), moreOps, more)
    requires moreOps == (if m.Start? then [m.op] else []) && forall e :: e in more && e.Inner? ==> m == Call(e.id)
    ensures var t := Step(s, m); forall id :: 0 <= id < |t.ops| ==> StageOk(t, id)
  {
    var t := Step(s, m);
    forall id | 0 <= id < |t.ops|
      ensures StageOk(t, id)
    {
      if id == |s.ops| {
        assert Inner(id) !in s.trace;
      } else if m.Tick? || m.Start? || id != m.id {
        OldStage(s, t, id, moreOps, more);
      } else {
        MovedStage(s, m, id);
      }
    }
  }

  lemma EventsKept(s: State, m: Move, moreOps: seq<Op>, more: seq<Event>)
    requires Inv(s) && Enabled(s, m) && Extends(s, Step(s, m), moreOps, more) && |more| <= 1
    requires forall e :: e in more && e.Inner? ==> m == Call(e.id)
    ensures var t := Step(s, m); forall k :: 0 <= k < |t.trace| ==> EventOk(t.ops, t.trace, k)
  {
    var t := Step(s, m);
    if m.Call? {
      CallOk(s, m.id);
    }
    forall k | 0 <= k < |t.trace|
      ensures EventOk(t.ops, t.trace, k)
    {
      if k < |s.trace| {
        OldEvent(s, t, k, moreOps, more);
      } else {
        assert t.trace[k] in more;
      }
    }
  }

  lemma AddedByMove(s: State, m: Move)
    requires Inv(s) && Enabled(s, m)
    ensures var t := Step(s, m);
            var more := Added(s, m);
            && Extends(s, t, if m.Start? then [m.op] else [], more) && |more| <= 1
            && (forall e :: e in more && e.Inner? ==> m == Call(e.id))
            && (forall e :: e in more ==> e.id < |s.ops|)
  {
  }

  lemma MoveKeepsInv(s: State, m: Move)
    requires Inv(s) && Enabled(s, m)
    ensures Inv(Step(s, m))
  {
    var t := Step(s, m);
    var moreOps := if m.Start? then [m.op] else [];
    var more := Added(s, m);
    AddedByMove(s, m);
    StagesKept(s, m, moreOps, more);
    EventsKept(s, m, moreOps, more);
    GrantsKept(s, m, moreOps, more);
    forall k | 0 <= k < |t.trace|
      ensures t.trace[k].id < |t.ops|
    {
      assert k >= |s.trace| ==> t.trace[k] in more;
    }
  }

  lemma {:induction false} RunKeepsInv(s: State, moves: seq<Move>)
    requires Inv(s) && ValidRun(s, moves)
    ensures Inv(Final(s, moves))
    decreases |moves|
  {
    if moves != [] {
      MoveKeepsInv(s, moves[0]);
      RunKeepsInv(Step(s, moves[0]), moves[1..]);
    }
  }

  /**
   In every interleaving: a transfer reaching the backend was confirmed itself; a program call reaching
   it was confirmed itself, or passed a session check at most 15 minutes after a grant recorded by a
   confirmed call of the same program; and no call reaches the backend twice.
   */
  lemma TraceSafe(now: nat, moves: seq<Move>, k: nat)
    requires ValidRun(Initial(now), moves) && k < |Final(Initial(now), moves).trace|
    requires Final(Initial(now), moves).trace[k].Inner?
    ensures var s := Final(Initial(now), moves);
            var id := s.trace[k].id;
            && id < |s.ops| && Justified(s.ops, s.trace, id, k)
            && (s.ops[id].Transfer? ==> ConfirmedBefore(s.trace, id, k))
            && (forall j :: 0 <= j < |s.trace| && s.trace[j] == Inner(id) ==> j == k)
  {
    RunKeepsInv(Initial(now), moves);
    assert EventOk(Final(Initial(now), moves).ops, Final(Initial(now), moves).trace, k);
  }

  /** Only recording a grant can add or prolong one; every other move, a use included, at most drops some. */
  lemma UseNeverExtends(s: State, m: Move, scope: string)
    requires |s.ops| == |s.stages| && Enabled(s, m) && scope in Step(s, m).grants
    ensures (m.Grant? && scope == Scope(s.ops[m.id]))
            || (scope in s.grants && Step(s, m).grants[scope] == s.grants[scope])
  {
  }

  /**
   What a grant lets through is not limited to repeats: while it lasts, a call of the program with any
   data, accounts and payer reaches the backend without the user being asked.
   */
  lemma GrantPassesAnyCall(s: State, op: Op)
    requires |s.ops| == |s.stages| && op.ProgramCall? && Live(s.grants, Scope(op), s.now).Some?
    ensures var id := |s.ops|;
            var moves := [Start(op), Check(id), Call(id)];
            ValidRun(s, moves) && Final(s, moves).trace == s.trace + [Hit(id, s.now), Inner(id)]
            && Final(s, moves).ops == s.ops + [op]
  {
    var id := |s.ops|;
    var a := Step(s, Start(op));
    var b := Step(a, Check(id));
    var c := Step(b, Call(id));
    RunOne(b, Call(id));
    RunTwo(a, Check(id), [Call(id)]);
    RunTwo(s, Start(op), [Check(id)] + [Call(id)]);
    assert [Start(op), Check(id), Call(id)] == [Start(op)] + ([Check(id)] + [Call(id)]);
    assert c.trace == s.trace + [Hit(id, s.now), Inner(id)];
  }

  /**
   When a program call goes on unasked: exactly when a grant for its program is live at its check. Data,
   accounts and payer play no part; without a live grant it waits for the user's answer.
   */
  lemma UnaskedExactlyWhenGranted(s: State, id: nat, op: Op)
    requires |s.ops| == |s.stages| && Enabled(s, Check(id)) && op.ProgramCall? && s.ops[id].ProgramCall?
    ensures var t := Step(s, Check(id));
            && (Enabled(t, Call(id)) <==> Live(s.grants, Scope(s.ops[id]), s.now).Some?)
            && (Enabled(t, Answer(id, true)) <==> Live(s.grants, Scope(s.ops[id]), s.now) == None)
            && (op.program == s.ops[id].program ==>
                  (Enabled(Step(s.(ops := s.ops[id := op]), Check(id)), Call(id)) <==> Enabled(t, Call(id))))
  {
  }

  /** A recorded grant is in the store, expiring no earlier than recorded, until it has expired. */
  predicate Remembered(s: State, g: nat)
    requires g < |s.trace| && s.trace[g].Granted? && s.trace[g].id < |s.ops|
  {
    var scope, expiry := Scope(s.ops[s.trace[g].id]), s.trace[g].at + SESSION_TTL_MS;
    s.trace[g].at <= s.now && (expiry < s.now || (scope in s.grants && s.grants[scope] >= expiry))
  }

  predicate AllRemembered(s: State) {
    forall g :: 0 <= g < |s.trace| && s.trace[g].Granted? ==> s.trace[g].id < |s.ops| && Remembered(s, g)
  }

  lemma MoveRemembers(s: State, m: Move)
    requires |s.ops| == |s.stages| && Enabled(s, m) && AllRemembered(s)
    ensures AllRemembered(Step(s, m)) && |Step(s, m).ops| == |Step(s, m).stages|
  {
    var t := Step(s, m);
    forall g | 0 <= g < |t.trace| && t.trace[g].Granted?
      ensures t.trace[g].id < |t.ops| && Remembered(t, g)
    {
      if g < |s.trace| {
        assert t.trace[g] == s.trace[g] && Remembered(s, g);
        assert t.ops[t.trace[g].id] == s.ops[s.trace[g].id];
      }
    }
  }

  lemma {:induction false} RunRemembers(s: State, moves: seq<Move>)
    requires |s.ops| == |s.stages| && AllRemembered(s) && ValidRun(s, moves)
    ensures AllRemembered(Final(s, moves))
    decreases |moves|
  {
    if moves != [] {
      MoveRemembers(s, moves[0]);
      RunRemembers(Step(s, moves[0]), moves[1..]);
    }
  }

  /** A grant was recorded, for a call of the same program, not more than 15 minutes ago. */
  predicate GrantedLately(s: State, id: nat) {
    exists g :: 0 <= g < |s.trace| && s.trace[g].Granted? && SameProgram(s.ops, id, s.trace[g].id)
                && s.now <= s.trace[g].at + 900_000
  }

  /**
   In every reachable state, told from the history alone: a program call's check lets it go on unasked if
   and only if a grant was recorded for a call of the same program not more than 15 minutes before.
   */
  lemma UnaskedExactlyAfterGrant(now: nat, moves: seq<Move>, id: nat)
    requires ValidRun(Initial(now), moves) && Enabled(Final(Initial(now), moves), Check(id))
    ensures var s := Final(Initial(now), moves);
            |s.ops| == |s.stages| && (Enabled(Step(s, Check(id)), Call(id)) <==> GrantedLately(s, id))
  {
    var s := Final(Initial(now), moves);
    RunKeepsInv(Initial(now), moves);
    RunRemembers(Initial(now), moves);
    assert StageOk(s, id);
    UnaskedExactlyWhenGranted(s, id, s.ops[id]);
    var scope := Scope(s.ops[id]);
    if Live(s.grants, scope, s.now).Some? {
      var g :| 0 <= g < |s.trace| && Explains(s.ops, s.trace, g, scope, s.grants[scope], s.now);
      ScopesDiffer(s.ops[id], s.ops[s.trace[g].id]);
      assert SameProgram(s.ops, id, s.trace[g].id);
    }
    if GrantedLately(s, id) {
      var g :| 0 <= g < |s.trace| && s.trace[g].Granted? && SameProgram(s.ops, id, s.trace[g].id)
               && s.now <= s.trace[g].at + 900_000;
      assert Remembered(s, g);
    }
  }

  /** The moves of a first call that is confirmed, and of a second one. */
  function TwoCalls(a: Op, b: Op): seq<Move> {
    [Start(a)] + ([Check(0)] + ([Answer(0, true)] + ([Grant(0)] + [Start(b), Check(1), Call(1)])))
  }

  /**
   From the very start, one confirmation covers a second call of the program that differs from the first in
   whatever it does: it reaches the backend, and the user was asked about the first call only.
   */
  lemma SecondCallUnasked(now: nat, a: Op, b: Op)
    requires a.ProgramCall? && b.ProgramCall? && a.program == b.program && a.data != b.data
    ensures var moves := TwoCalls(a, b);
            && ValidRun(Initial(now), moves) && Final(Initial(now), moves).ops == [a, b]
            && Final(Initial(now), moves).trace == [Confirmed(0), Granted(0, now), Hit(1, now), Inner(1)]
  {
    var s0 := Initial(now);
    var s1 := Step(s0, Start(a));
    var s2 := Step(s1, Check(0));
    var s3 := Step(s2, Answer(0, true));
    var s4 := Step(s3, Grant(0));
    GrantPassesAnyCall(s4, b);
    var second := [Start(b), Check(1), Call(1)];
    RunTwo(s3, Grant(0), second);
    RunTwo(s2, Answer(0, true), [Grant(0)] + second);
    RunTwo(s1, Check(0), [Answer(0, true)] + ([Grant(0)] + second));
    RunTwo(s0, Start(a), [Check(0)] + ([Answer(0, true)] + ([Grant(0)] + second)));
    assert s4.trace == [Confirmed(0), Granted(0, now)] && s4.ops == [a];
  }

  lemma RunOne(s: State, m: Move)
    requires |s.ops| == |s.stages| && Enabled(s, m)
    ensures ValidRun(s, [m]) && Final(s, [m]) == Step(s, m)
  {
    assert [m][1..] == [];
  }

  lemma RunTwo(s: State, m: Move, rest: seq<Move>)
    requires |s.ops| == |s.stages| && Enabled(s, m) && ValidRun(Step(s, m), rest)
    ensures ValidRun(s, [m] + rest) && Final(s, [m] + rest) == Final(Step(s, m), rest)
  {
    assert ([m] + rest)[1..] == rest;
  }
}
