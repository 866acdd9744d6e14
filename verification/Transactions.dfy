/** Transactions that leave no choice: what they commit, and that they can complete in one way only. */
module Transactions {
  import opened Bytes
  import opened Chain
  import opened Runs

  ghost predicate OnlyMove(net: Net, c: Config, m: Move) {
    Enabled(net, c, m) && forall m' :: Enabled(net, c, m') ==> m' == m
  }

  /** The moves lead to a closed transaction, and at each of them there was no other choice. */
  ghost predicate OnlyWay(net: Net, c: Config, moves: seq<Move>)
    decreases |moves|
  {
    if moves == [] then !c.busy
    else c.busy && OnlyMove(net, c, moves[0]) && OnlyWay(net, Next(c, moves[0]), moves[1..])
  }

  predicate NoBegin(moves: seq<Move>) {
    moves == [] || (!moves[0].Begin? && NoBegin(moves[1..]))
  }

  predicate Idle(c: Config) {
    !c.busy && c.stack == []
  }

  lemma FirstOfWay(net: Net, c: Config, m: Move, rest: seq<Move>)
    requires c.busy && OnlyMove(net, c, m) && OnlyWay(net, Next(c, m), rest)
    ensures OnlyWay(net, c, [m] + rest) && Final(c, [m] + rest) == Final(Next(c, m), rest)
  {
    assert ([m] + rest)[1..] == rest;
  }

  /** The only way is a valid run, and a valid run that closes the transaction and begins no other takes it. */
  lemma {:induction false} OnlyWayTaken(net: Net, c: Config, way: seq<Move>, moves: seq<Move>)
    requires OnlyWay(net, c, way)
    ensures ValidRun(net, c, way) && !Final(c, way).busy
    ensures ValidRun(net, c, moves) && NoBegin(moves) && !Final(c, moves).busy ==> moves == way
    decreases |way|
  {
    if way == [] {
      assert ValidRun(net, c, moves) && NoBegin(moves) ==> moves == [];
    } else {
      var rest := if moves == [] then [] else moves[1..];
      OnlyWayTaken(net, Next(c, way[0]), way[1..], rest);
      assert way == [way[0]] + way[1..];
      assert moves != [] ==> moves == [moves[0]] + moves[1..];
    }
  }

  /** A modelled call leaves no choice. */
  lemma OutcomeForces(net: Net, c: Config, f: Frame, r: Outcome)
    requires c.busy && c.stack != [] && c.stack[0] == f && Modelled(net, f.call) && Covered(net, f.call)
    requires ModelOutcome(net, c.working, f.caller, f.call) == r
    ensures OnlyMove(net, c, if r.Ok? then Execute(r.value) else Fail)
  {
  }

  lemma CommitForced(net: Net, c: Config)
    requires c.busy && c.stack == []
    ensures OnlyWay(net, c, [Commit])
  {
    assert OnlyMove(net, c, Commit);
    assert [Commit][1..] == [];
  }

  lemma FailCloses(net: Net, c: Config)
    requires c.busy && OnlyMove(net, c, Fail)
    ensures OnlyWay(net, c, [Fail]) && Final(c, [Fail]).committed == c.committed && Final(c, [Fail]).stack == []
  {
    assert [Fail][1..] == [];
  }

  lemma CommitAfter(net: Net, c: Config, e: Effect)
    requires c.busy && |c.stack| == 1 && e.emitted == [] && OnlyMove(net, c, Execute(e))
    ensures OnlyWay(net, c, [Execute(e)] + [Commit])
    ensures var end := Final(c, [Execute(e)] + [Commit]); end.committed == e.accounts && end.stack == []
  {
    var c' := Next(c, Execute(e));
    CommitForced(net, c');
    FirstOfWay(net, c, Execute(e), [Commit]);
    assert ([Execute(e)] + [Commit])[1..] == [Commit] && [Commit][1..] == [];
    assert Final(c', [Commit]) == Next(c', Commit);
  }

  lemma SpawnOne(c: Config, e: Effect)
    requires |c.stack| == 1 && |e.emitted| == 1
    ensures Next(c, Execute(e)).stack == [Frame(c.stack[0].call.program, e.emitted[0], |c.log|)]
  {
    assert e.emitted[1..] == [] && c.stack[1..] == [];
    assert Spawn(c.stack[0].call.program, e.emitted[1..], |c.log|) == [];
  }

  // ---- a call that makes one further call -----------------------------------------------------------

  /** A hook that only asks, then the asked program: any failure ends it, otherwise it commits. */
  function Way(asks: Move, answers: Move): seq<Move> {
    if asks == Fail then [asks] else if answers == Fail then [asks] + [answers] else [asks] + ([answers] + [Commit])
  }

  lemma AskedWay(net: Net, c: Config, asks: Move, answers: Move)
    requires c.busy && c.working == c.committed && |c.stack| == 1 && OnlyMove(net, c, asks)
    requires asks == Fail || (asks.Execute? && asks.effect.accounts == c.working && |asks.effect.emitted| == 1)
    requires asks.Execute? ==> OnlyMove(net, Next(c, asks), answers)
    requires answers == Fail || (answers.Execute? && answers.effect.emitted == [])
    ensures OnlyWay(net, c, Way(asks, answers))
    ensures var end := Final(c, Way(asks, answers));
            end.stack == []
            && end.committed == if asks.Execute? && answers.Execute? then answers.effect.accounts else c.committed
  {
    if asks == Fail {
      FailCloses(net, c);
    } else {
      var c' := Next(c, asks);
      SpawnOne(c, asks.effect);
      if answers == Fail {
        FailCloses(net, c');
        FirstOfWay(net, c, asks, [answers]);
      } else {
        CommitAfter(net, c', answers.effect);
        FirstOfWay(net, c, asks, [answers] + [Commit]);
      }
    }
  }

  /** Runs put one after the other. */
  lemma {:induction false} RunThen(net: Net, c: Config, a: seq<Move>, b: seq<Move>)
    requires ValidRun(net, c, a) && ValidRun(net, Final(c, a), b)
    ensures ValidRun(net, c, a + b) && Final(c, a + b) == Final(Final(c, a), b)
    decreases |a|
  {
    hide Enabled, Next;
    if a == [] {
      assert a + b == b;
    } else {
      RunThen(net, Next(c, a[0]), a[1..], b);
      assert (a + b)[1..] == a[1..] + b;
    }
  }
}
