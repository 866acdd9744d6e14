/**
 The faucet claim: nonce search and the claim protocol. Everything the claim observes comes from a
 tape of arbitrary moments, so any environment, changing between any two reads, is covered.
 */
module Faucet {
  import opened Bytes
  import opened Pda
  import opened Risc0
  import opened InstructionReader

  const PRIZE := 150
  const MAX_SUPPORTED_DIFFICULTY := 3
  const RECONCILE_DEADLINE := 90
  const MAX_STALE_RETRIES := 3
  const U128_RANGE := 0x1_0000_0000_0000_0000_0000_0000_0000_0000

  // ---- challenges and solutions ---------------------------------------------------------------

  datatype Challenge = Challenge(difficulty: byte, seed: Id32)

  function Parse(data: seq<byte>): (r: Option<Challenge>)
    ensures r.Some? <==> |data| == 33 && data[0] <= 32
    ensures r.Some? ==> data == [r.value.difficulty] + r.value.seed
  {
    if |data| != 33 || data[0] > 32 then None else Some(Challenge(data[0], data[1..]))
  }

  predicate Supported(c: Challenge) {
    c.difficulty <= MAX_SUPPORTED_DIFFICULTY
  }

  /** The digest of seed and little-endian nonce starts with as many zero bytes as the difficulty says. */
  predicate Solves(sha: Sha, c: Challenge, nonce: u128) {
    var digest := sha(c.seed + Octets16(nonce));
    forall k :: 0 <= k < c.difficulty && k < 32 ==> digest[k] == 0
  }

  /** The 48 bytes a nonce is tried with: the seed, then the nonce with its lowest byte first. */
  predicate TriedWith(c: Challenge, nonce: u128, input: seq<byte>) {
    |input| == 48 && input[..32] == c.seed && FromLittleEndian(input[32..]) == nonce
  }

  predicate StartsWithZeros(digest: Id32, n: nat)
    requires n <= 32
  {
    forall k :: 0 <= k < n ==> digest[k] == 0
  }

  /** A nonce solves a challenge exactly when the digest of those bytes starts with that many zeros. */
  lemma SolvesSpelled(sha: Sha, c: Challenge, nonce: u128, input: seq<byte>)
    requires c.difficulty <= 32 && TriedWith(c, nonce, input)
    ensures Solves(sha, c, nonce) <==> StartsWithZeros(sha(input), c.difficulty)
  {
    FromLittleEndianInverse(input[32..]);
    OctetsAreLittleEndian(nonce);
    assert input == input[..32] + input[32..];
  }

  /** There is such an input for every nonce. */
  lemma TriedWithSome(c: Challenge, nonce: u128)
    ensures TriedWith(c, nonce, c.seed + Octets16(nonce))
  {
    OctetsAreLittleEndian(nonce);
    assert Pow256(8) == 0x1_0000_0000_0000_0000;
    assert Pow256(12) == 0x1_0000_0000_0000_0000_0000_0000;
    LittleEndianInverse(nonce, 16);
  }

  /** Buffer and scan, as the source does it. */
  method ValidSolution(sha: Sha, c: Challenge, solution: u128) returns (ok: bool)
    requires c.difficulty <= 32
    ensures ok == Solves(sha, c, solution)
    ensures forall input :: TriedWith(c, solution, input) ==> (ok <==> StartsWithZeros(sha(input), c.difficulty))
  {
    forall input | TriedWith(c, solution, input)
      ensures Solves(sha, c, solution) <==> StartsWithZeros(sha(input), c.difficulty)
    {
      SolvesSpelled(sha, c, solution, input);
    }
    var input := new byte[48](_ => 0);
    var le := Octets16(solution);
    forall k | 0 <= k < 32 {
      input[k] := c.seed[k];
    }
    forall k | 0 <= k < 16 {
      input[32 + k] := le[k];
    }
    assert input[..] == c.seed + le;
    var digest := sha(input[..]);
    var i := 0;
    while i < c.difficulty
      invariant 0 <= i <= c.difficulty
      invariant forall k :: 0 <= k < i ==> digest[k] == 0
    {
      if digest[i] != 0 {
        return false;
      }
      i := i + 1;
    }
    ok := true;
  }

  // ---- the search -----------------------------------------------------------------------------

  /** The nonce tried after i steps from a start, wrapping at 2^128. */
  function Tried(start: u128, i: nat): u128 {
    (start + i) % U128_RANGE
  }

  /** Steps from a start to a nonce, going up and around. */
  function Distance(start: u128, nonce: u128): (d: nat)
    ensures d < U128_RANGE
  {
    if nonce >= start then nonce - start else nonce + U128_RANGE - start
  }

  lemma NextTried(start: u128, i: nat)
    ensures Tried(start, i + 1) == if Tried(start, i) == U128_RANGE - 1 then 0 else Tried(start, i) + 1
  {
  }

  lemma WrapsAround(start: u128, i: nat)
    ensures i >= U128_RANGE ==> Tried(start, i - U128_RANGE) == Tried(start, i)
    ensures i < U128_RANGE ==> i == Distance(start, Tried(start, i))
  {
  }

  lemma DistanceReaches(start: u128, nonce: u128)
    ensures Tried(start, Distance(start, nonce)) == nonce
  {
  }

  /** The search is over at the latest after d steps: told to stop, or at a solution. */
  predicate Over(sha: Sha, c: Challenge, start: u128, stop: nat -> bool, d: nat) {
    stop(d) || Solves(sha, c, Tried(start, d))
  }

  /** Neither told to stop nor at a solution at any step before d. */
  predicate Fruitless(sha: Sha, c: Challenge, start: u128, stop: nat -> bool, d: nat) {
    forall j :: 0 <= j < d ==> !stop(j) && !Solves(sha, c, Tried(start, j))
  }

  /** Steps left to a point known to end the search. */
  function Left(end: nat, i: nat): int {
    end - i
  }

  /** The flag is read before each try. Runs to the first stop or solution, from any start. */
  method Search(sha: Sha, c: Challenge, start: u128, stop: nat -> bool, ghost end: nat) returns (r: Option<u128>)
    requires c.difficulty <= 32 && Over(sha, c, start, stop, end)
    ensures r.Some? ==> Solves(sha, c, r.value) && Fruitless(sha, c, start, stop, Distance(start, r.value))
                        && !stop(Distance(start, r.value))
    ensures r.None? ==> exists d :: 0 <= d <= end && stop(d) && Fruitless(sha, c, start, stop, d)
  {
    var candidate, i := start, 0;
    while true
      invariant i <= end && candidate == Tried(start, i) && Fruitless(sha, c, start, stop, i)
      decreases Left(end, i)
    {
      if stop(i) {
        return None;
      }
      var ok := ValidSolution(sha, c, candidate);
      if ok {
        FirstRound(sha, c, start, stop, i);
        return Some(candidate);
      }
      NextTried(start, i);
      candidate := if candidate == U128_RANGE - 1 then 0 else candidate + 1;
      i := i + 1;
    }
  }

  /** A search that finds its first solution has not gone around: it stands at the cyclic distance. */
  lemma FirstRound(sha: Sha, c: Challenge, start: u128, stop: nat -> bool, i: nat)
    requires Fruitless(sha, c, start, stop, i) && Solves(sha, c, Tried(start, i))
    ensures i == Distance(start, Tried(start, i))
  {
    WrapsAround(start, i);
  }

  /**
   The search is total whenever it can be: from every start, if some nonce is valid and the flag is
   never set, it ends, at a valid nonce none nearer than which is valid.
   */
  method SearchUnstopped(sha: Sha, c: Challenge, start: u128, ghost valid: u128) returns (nonce: u128)
    requires c.difficulty <= 32 && Solves(sha, c, valid)
    ensures Solves(sha, c, nonce)
    ensures forall n: u128 :: Solves(sha, c, n) ==> Distance(start, nonce) <= Distance(start, n)
  {
    ghost var end := Distance(start, valid);
    DistanceReaches(start, valid);
    var r := Search(sha, c, start, NeverStop, end);
    nonce := r.value;
    forall n: u128 | Solves(sha, c, n)
      ensures Distance(start, nonce) <= Distance(start, n)
    {
      DistanceReaches(start, n);
    }
  }

  function NeverStop(i: nat): bool {
    false
  }

  // ---- the claim's environment ------------------------------------------------------------------

  datatype Pinata = Pinata(owned: bool, balance: u128, data: seq<byte>)

  datatype Eligibility = Eligible | Uninitialized | WrongOwner

  datatype Recipient = Recipient(eligibility: Eligibility, balance: u128)

  /** What an interaction would find at some moment; None where the node does not answer. */
  datatype Moment = Moment(
    clock: nat, pinata: Option<Pinata>, winner: Option<Recipient>, holdsKey: bool,
    accepted: Option<string>, start: u128, patience: nat)

  /** The tape after its first moment. */
  function Later(tape: seq<Moment>): seq<Moment> {
    if tape == [] then [] else tape[1..]
  }

  /** A moment at which the pinata account can be read as one. */
  predicate Live(m: Moment) {
    m.pinata.Some? && m.pinata.value.owned && Parse(m.pinata.value.data).Some?
  }

  function Shown(m: Moment): Challenge
    requires Live(m)
  {
    Parse(m.pinata.value.data).value
  }

  /** A moment at which the search starts at a solution. */
  predicate Lucky(sha: Sha, c: Challenge, m: Moment) {
    m.patience > 0 && Solves(sha, c, m.start)
  }

  datatype Event =
    | Clock(at: nat)
    | Seen(pool: u128, challenge: Challenge)
    | Balance(amount: u128)
    | Initialize
    | Submit(nonce: u128, reply: Option<string>)

  datatype Stop =
    | TapeEnded | NoAnswer | NotPinata | BadChallenge | Depleted | UnsupportedDifficulty | SolveTimeout
    | ForeignAccount | KeyMissing | InitUnconfirmed | OutcomeUnknown | Unconfirmed(tx: string) | Rotating

  datatype Receipt = Receipt(before: u128, expected: u128, tx: string, attempt: nat)

  /** What is known of how a claim ended. */
  type Claimed = Result<Receipt, Stop>

  class Node {
    var tape: seq<Moment>
    var events: seq<Event>

    constructor (tape: seq<Moment>)
      ensures this.tape == tape && events == []
    {
      this.tape, events := tape, [];
    }

    method Take() returns (r: Result<Moment, Stop>)
      modifies this
      ensures events == old(events) && |tape| <= old(|tape|)
      ensures r.Ok? ==> old(tape) == [r.value] + tape
      ensures r.Err? ==> r.error == TapeEnded
      ensures r.Ok? <==> old(tape) != []
      ensures tape == Later(old(tape))
    {
      if tape == [] {
        return Err(TapeEnded);
      }
      r := Ok(tape[0]);
      tape := tape[1..];
    }

    method Now() returns (r: Result<nat, Stop>)
      modifies this
      ensures r.Ok? ==> events == old(events) + [Clock(r.value)] && |tape| < old(|tape|)
      ensures r.Err? ==> events == old(events) && r.error == TapeEnded
      ensures old(tape) != [] ==> r == Ok(old(tape)[0].clock)
      ensures tape == Later(old(tape))
    {
      var m := Take();
      if m.Err? {
        return Err(m.error);
      }
      events := events + [Clock(m.value.clock)];
      r := Ok(m.value.clock);
    }

    /** Reads the pinata account; it must be the live pinata program's and hold a challenge. */
    method ReadChallenge() returns (r: Result<(u128, Challenge), Stop>)
      modifies this
      ensures r.Ok? ==> events == old(events) + [Seen(r.value.0, r.value.1)] && r.value.1.difficulty <= 32
      ensures r.Err? ==> events == old(events) && r.error in {TapeEnded, NoAnswer, NotPinata, BadChallenge}
      ensures tape == Later(old(tape))
      ensures r.Ok? <==> old(tape) != [] && Live(old(tape)[0])
      ensures r.Ok? ==> r.value == (old(tape)[0].pinata.value.balance, Shown(old(tape)[0]))
    {
      var m := Take();
      if m.Err? {
        return Err(m.error);
      }
      if m.value.pinata.None? {
        return Err(NoAnswer);
      }
      var account := m.value.pinata.value;
      if !account.owned {
        return Err(NotPinata);
      }
      var challenge := Parse(account.data);
      if challenge.None? {
        return Err(BadChallenge);
      }
      events := events + [Seen(account.balance, challenge.value)];
      r := Ok((account.balance, challenge.value));
    }

    method ReadRecipient() returns (r: Result<Recipient, Stop>)
      modifies this
      ensures r.Ok? ==> events == old(events) + [Balance(r.value.balance)] && |tape| < old(|tape|)
      ensures r.Err? ==> events == old(events) && r.error in {TapeEnded, NoAnswer}
      ensures tape == Later(old(tape))
      ensures r.Ok? <==> old(tape) != [] && old(tape)[0].winner.Some?
      ensures r.Ok? ==> r.value == old(tape)[0].winner.value
    {
      var m := Take();
      if m.Err? {
        return Err(m.error);
      }
      if m.value.winner.None? {
        return Err(NoAnswer);
      }
      events := events + [Balance(m.value.winner.value.balance)];
      r := Ok(m.value.winner.value);
    }

    /** The search for a nonce against the clock: it runs out after some number of tries. */
    method Solve(sha: Sha, c: Challenge) returns (r: Result<u128, Stop>)
      requires c.difficulty <= 32
      modifies this
      ensures events == old(events)
      ensures r.Ok? ==> Supported(c) && Solves(sha, c, r.value)
      ensures r.Err? ==> r.error in {TapeEnded, UnsupportedDifficulty, SolveTimeout}
      ensures r == Err(UnsupportedDifficulty) <==> !Supported(c)
      ensures Supported(c) ==> tape == Later(old(tape))
      ensures old(tape) != [] && Supported(c) && Lucky(sha, c, old(tape)[0]) ==> r.Ok?
    {
      if !Supported(c) {
        return Err(UnsupportedDifficulty);
      }
      var m := Take();
      if m.Err? {
        return Err(m.error);
      }
      var patience := m.value.patience;
      var nonce := Search(sha, c, m.value.start, i => i >= patience, patience);
      assert Tried(m.value.start, 0) == m.value.start;
      r := if nonce.Some? then Ok(nonce.value) else Err(SolveTimeout);
    }

    /** Sends the one transaction a claim may send; the node may refuse it or not answer. */
    method SubmitClaim(nonce: u128) returns (r: Result<string, Stop>)
      modifies this
      ensures r == Err(TapeEnded) ==> events == old(events)
      ensures r != Err(TapeEnded) ==>
                events == old(events) + [Submit(nonce, if r.Ok? then Some(r.value) else None)]
      ensures r.Err? ==> r.error in {TapeEnded, NoAnswer}
      ensures tape == Later(old(tape))
      ensures r.Ok? <==> old(tape) != [] && old(tape)[0].accepted.Some?
      ensures r.Ok? ==> r.value == old(tape)[0].accepted.value
    {
      var m := Take();
      if m.Err? {
        return Err(m.error);
      }
      events := events + [Submit(nonce, m.value.accepted)];
      r := if m.value.accepted.Some? then Ok(m.value.accepted.value) else Err(NoAnswer);
    }

    /** Initializes an account the wallet holds the key of and waits for the chain to show it. */
    method Register() returns (r: Option<Stop>)
      modifies this
      ensures old(events) <= events && Calm(Since(events, old(|events|)))
      ensures InitializesOnce(Since(events, old(|events|)))
      ensures old(tape) != [] ==> (r == Some(KeyMissing) <==> !old(tape)[0].holdsKey)
      ensures old(tape) == [] || !old(tape)[0].holdsKey ==> events == old(events)
      ensures r.Some? ==> r.value in {TapeEnded, NoAnswer, KeyMissing, InitUnconfirmed}
      ensures LeftOf(old(tape), tape) && (r.None? ==> JustKnown(old(tape), tape))
      ensures old(tape) == [] ==> r == Some(TapeEnded)
      ensures old(tape) != [] && old(tape)[0].holdsKey ==>
                Initialize in Since(events, old(|events|))
                && (old(tape)[0].accepted.Some? && OwnedAtOnce(old(tape)[1..]) ==> r == None && tape == old(tape)[4..])
    {
      ghost var t0, whole := events, tape;
      AskedFirst([]);
      Grown(t0, [], Initialize);
      assert LeftOf(whole, Later(whole)) && Calm([]) && InitializesOnce([]);
      hide Looks, Calm, InitializesOnce, LeftOf, JustKnown;
      var m := Take();
      if m.Err? {
        return Some(m.error);
      }
      if !m.value.holdsKey {
        return Some(KeyMissing);
      }
      events := events + [Initialize];
      ghost var asked, left := events, tape;
      if m.value.accepted.None? {
        return Some(NoAnswer);
      }
      r := AwaitOwner();
      ghost var u := Since(events, |asked|);
      SinceSplits(t0, asked, events);
      AskedFirst(u);
      LeftLater(whole, left, tape);
    }

    /**
     Polls until the chain shows the account as initialized, for 90 seconds. It ends well only upon a moment
     that shows it, and right away when the first look does.
     */
    method AwaitOwner() returns (r: Option<Stop>)
      modifies this
      ensures old(events) <= events && Looks(Since(events, old(|events|)))
      ensures r.Some? ==> r.value in {TapeEnded, NoAnswer, InitUnconfirmed}
      ensures LeftOf(old(tape), tape) && (r.None? ==> JustKnown(old(tape), tape))
      ensures r == Some(InitUnconfirmed) ==> WaitedLong(Since(events, old(|events|)))
      ensures OwnedAtOnce(old(tape)) ==> r == None && tape == old(tape)[3..]
    {
      ghost var t0, whole := events, tape;
      var began := Now();
      if began.Err? {
        return Some(began.error);
      }
      ghost var seen := [Clock(began.value)];
      Grown(t0, [], Clock(began.value));
      hide Looks, JustKnown, Known, WaitedLong;
      LooksJoined([], seen, began.value);
      while true
        invariant events == t0 + seen && Looks(seen) && seen != [] && seen[0] == Clock(whole[0].clock)
        invariant LeftOf(whole, tape) && |tape| < |whole|
        invariant tape == whole[1..] || !OwnedAtOnce(whole)
        decreases |tape|
      {
        ghost var before := tape;
        var done, stop := LookForOwner(began.value);
        ghost var u := Since(events, |t0 + seen|);
        assert events == t0 + seen + u;
        Between(t0, seen, u);
        LeftLater(whole, before, tape);
        LooksJoined(seen, u, began.value);
        if done {
          return stop;
        }
        seen := seen + u;
      }
    }

    /** One look: at the clock, then at the account. */
    method LookForOwner(began: nat) returns (done: bool, stop: Option<Stop>)
      modifies this
      ensures old(events) <= events && Looks(Since(events, old(|events|))) && LeftOf(old(tape), tape)
      ensures !done ==> |tape| < |old(tape)|
      ensures done && stop.Some? ==> stop.value in {TapeEnded, NoAnswer, InitUnconfirmed}
      ensures done && stop.None? ==> JustKnown(old(tape), tape)
      ensures done && stop == Some(InitUnconfirmed) ==>
                var u := Since(events, old(|events|)); u != [] && u[|u| - 1].Clock? && u[|u| - 1].at >= began + 90
      ensures |old(tape)| >= 2 && old(tape)[0].clock < began + 90 && Known(old(tape)[1]) ==>
                done && stop == None && tape == old(tape)[2..]
    {
      var now := Now();
      if now.Err? {
        return true, Some(now.error);
      }
      if now.value >= began + RECONCILE_DEADLINE {
        return true, Some(InitUnconfirmed);
      }
      var account := ReadRecipient();
      if account.Err? {
        return true, Some(account.error);
      }
      done, stop := account.value.eligibility == Eligible, None;
    }
  }

  /** What is left of a tape once some moments are used up. */
  predicate LeftOf(before: seq<Moment>, after: seq<Moment>) {
    |after| <= |before| && after == before[|before| - |after|..]
  }

  /** The moment last used up shows an account that can receive. */
  predicate JustKnown(before: seq<Moment>, after: seq<Moment>) {
    |after| < |before| && LeftOf(before, after) && Known(before[|before| - |after| - 1])
  }

  lemma LeftLater(before: seq<Moment>, between: seq<Moment>, after: seq<Moment>)
    requires LeftOf(before, between) && LeftOf(between, after)
    ensures LeftOf(before, after) && (JustKnown(between, after) ==> JustKnown(before, after))
  {
  }

  /** Two looks at the clock, the last of them at least 90 seconds after the first. */
  predicate WaitedLong(t: seq<Event>) {
    t != [] && t[0].Clock? && t[|t| - 1].Clock? && t[|t| - 1].at >= t[0].at + 90
  }

  /** The clock, the clock again within the time, and the account is there. */
  predicate OwnedAtOnce(tape: seq<Moment>) {
    |tape| >= 3 && tape[1].clock < tape[0].clock + 90 && Known(tape[2])
  }

  /** Looks at the clock and at the account only. */
  predicate Looks(t: seq<Event>) {
    forall k :: 0 <= k < |t| ==> t[k].Clock? || t[k].Balance?
  }

  lemma CalmJoined(t: seq<Event>, u: seq<Event>)
    requires Calm(t) && Calm(u)
    ensures Calm(t + u) && (Initialize in u ==> Initialize in t + u)
  {
  }

  /** Looks, then more looks. */
  lemma LooksJoined(t: seq<Event>, u: seq<Event>, began: nat)
    ensures Looks([Clock(began)]) && Looks([]) && (Looks(t) && Looks(u) ==> Looks(t + u))
    ensures t != [] && t[0] == Clock(began) && u != [] && u[|u| - 1].Clock? && u[|u| - 1].at >= began + 90 ==>
              WaitedLong(t + u)
  {
  }

  /** An initialization, then looks. */
  lemma AskedFirst(u: seq<Event>)
    requires Looks(u)
    ensures var t := [Initialize] + u; Calm(t) && InitializesOnce(t) && t[0] == Initialize
  {
  }

  /** No claim was submitted. */
  predicate Quiet(t: seq<Event>) {
    forall k :: 0 <= k < |t| ==> !t[k].Submit?
  }

  function Credited(balance: u128): u128 {
    (balance + PRIZE) % U128_RANGE
  }

  // ---- what a trace must look like ----------------------------------------------------------------

  /**
   Event k is a submission made right after reading a live, supported challenge its nonce solves, with
   a prize in the pool, and right after reading the recipient's balance.
   */
  predicate JustifiedAt(sha: Sha, t: seq<Event>, k: nat) {
    && 2 <= k < |t| && t[k].Submit? && t[k - 1].Balance? && t[k - 2].Seen?
    && t[k - 2].pool >= 150 && t[k - 2].challenge.difficulty <= 3 && Solves(sha, t[k - 2].challenge, t[k].nonce)
  }

  /** A submission at k and none elsewhere. */
  predicate OnlySubmission(t: seq<Event>, k: nat) {
    k < |t| && t[k].Submit? && forall j :: 0 <= j < |t| && t[j].Submit? ==> j == k
  }

  /** Whatever the environment did: nothing was submitted, or one justified claim. */
  ghost predicate Safe(sha: Sha, t: seq<Event>) {
    Quiet(t) || exists k :: OnlySubmission(t, k) && JustifiedAt(sha, t, k)
  }

  /** After the submission at k only the balance before it was seen. */
  predicate Unmoved(t: seq<Event>, k: nat, end: nat)
    requires 1 <= k <= end <= |t| && t[k - 1].Balance?
  {
    forall j :: k < j < end && t[j].Balance? ==> t[j].amount == t[k - 1].amount
  }

  /** The credit was seen: the last event is the balance from just before the submission, plus the prize. */
  ghost predicate CreditSeen(t: seq<Event>, receipt: Receipt) {
    exists k :: 1 <= k < |t| - 1 && OnlySubmission(t, k) && t[k - 1] == Balance(receipt.before)
                && t[k].reply == Some(receipt.tx) && Unmoved(t, k, |t| - 1)
                && t[|t| - 1] == Balance(receipt.expected)
                && receipt.expected == (receipt.before + 150) % U128_RANGE
  }

  /** Challenges read: two for every round of the claim. */
  function Challenges(t: seq<Event>): nat {
    if t == [] then 0 else Challenges(t[..|t| - 1]) + (if t[|t| - 1].Seen? then 1 else 0)
  }

  lemma OneMore(t: seq<Event>, e: Event)
    ensures Challenges(t + [e]) == Challenges(t) + (if e.Seen? then 1 else 0)
  {
    assert (t + [e])[..|t|] == t;
  }

  /** Neither a challenge read nor a claim submitted. */
  predicate Calm(t: seq<Event>) {
    forall k :: 0 <= k < |t| ==> !t[k].Seen? && !t[k].Submit?
  }

  /** The clock was not read. */
  predicate Clockless(t: seq<Event>) {
    forall k :: 0 <= k < |t| ==> !t[k].Clock?
  }

  /** The balance was not read. */
  predicate Unread(t: seq<Event>) {
    forall k :: 0 <= k < |t| ==> !t[k].Balance?
  }

  /** The account is initialized first, if at all. */
  predicate InitializesOnce(t: seq<Event>) {
    forall k :: 0 <= k < |t| && t[k].Initialize? ==> k == 0
  }

  lemma {:induction false} CalmCounts(t: seq<Event>)
    requires Calm(t)
    ensures Challenges(t) == 0 && Quiet(t)
  {
    if t != [] {
      CalmCounts(t[..|t| - 1]);
    }
  }

  /** The events after the first n. */
  function Since(t: seq<Event>, n: nat): seq<Event> {
    if n <= |t| then t[n..] else []
  }

  lemma SinceSplits(a: seq<Event>, b: seq<Event>, c: seq<Event>)
    requires a <= b <= c
    ensures a <= c && Since(c, |a|) == Since(b, |a|) + Since(c, |b|)
  {
  }

  // ---- the claim ------------------------------------------------------------------------------------

  /** What became of one round: the challenge was stale, the balance had moved, or a claim was sent. */
  datatype Round = Stale | Moved(balance: u128) | Sent(tx: string)

  /** The four events of a round that sends a claim. */
  predicate SendingRound(sha: Sha, t: seq<Event>, before: u128) {
    && |t| == 4 && t[0].Seen? && t[1].Seen? && t[0].challenge == t[1].challenge && t[1].pool >= PRIZE
    && t[2] == Balance(before) && t[3].Submit? && Supported(t[1].challenge) && Solves(sha, t[1].challenge, t[3].nonce)
  }

  /** A moment at which the recipient's account is there and can receive. */
  predicate Known(m: Moment) {
    m.winner.Some? && m.winner.value.eligibility == Eligible
  }

  /** Three moments at which a supported challenge with a prize is read, solved at once and read again. */
  predicate Ripe(sha: Sha, tape: seq<Moment>) {
    && |tape| >= 3 && Live(tape[0]) && Live(tape[2])
    && Shown(tape[0]) == Shown(tape[2]) && Shown(tape[0]).difficulty <= 3
    && tape[0].pinata.value.balance >= 150 && tape[2].pinata.value.balance >= 150
    && Lucky(sha, Shown(tape[0]), tape[1])
  }

  /** Two moments at which the balance is still the given one and the claim is accepted. */
  predicate Sendable(tape: seq<Moment>, before: u128) {
    |tape| >= 2 && tape[0].winner.Some? && tape[0].winner.value.balance == before && tape[1].accepted.Some?
  }

  /** A refused account funds nothing; an unused one is initialized first. */
  method Prepare(node: Node) returns (stop: Option<Stop>)
    modifies node
    ensures old(node.events) <= node.events && Calm(Since(node.events, old(|node.events|)))
    ensures stop.Some? ==> stop.value in {TapeEnded, NoAnswer, KeyMissing, InitUnconfirmed, ForeignAccount}
    ensures old(node.tape) == [] || old(node.tape)[0].winner.None? ==> stop in {Some(TapeEnded), Some(NoAnswer)}
    ensures old(node.tape) != [] && Known(old(node.tape)[0]) ==> stop == None && node.tape == old(node.tape)[1..]
    ensures stop.None? ==> JustKnown(old(node.tape), node.tape)
    ensures old(node.tape) != [] && old(node.tape)[0].winner.Some? ==>
              var tape, state := old(node.tape), old(node.tape)[0].winner.value.eligibility;
              && (stop == Some(ForeignAccount) <==> state == WrongOwner)
              && (stop == Some(KeyMissing) <==> state == Uninitialized && |tape| > 1 && !tape[1].holdsKey)
              && (state == Uninitialized && |tape| > 1 && tape[1].holdsKey ==>
                    Initialize in Since(node.events, old(|node.events|)))
  {
    ghost var t0 := node.events;
    var recipient := node.ReadRecipient();
    if recipient.Err? {
      return Some(recipient.error);
    }
    ghost var t1, left := node.events, node.tape;
    match recipient.value.eligibility {
      case Uninitialized =>
        stop := node.Register();
        SinceSplits(t0, t1, node.events);
        CalmJoined(Since(t1, |t0|), Since(node.events, |t1|));
        hide Calm, InitializesOnce, OwnedAtOnce;
        LeftLater(old(node.tape), left, node.tape);
      case WrongOwner => stop := Some(ForeignAccount);
      case Eligible => stop := None;
    }
  }

  /** What can end a round that sent nothing. */
  predicate BeforeSending(e: Stop) {
    e in {TapeEnded, NoAnswer, NotPinata, BadChallenge, Depleted, UnsupportedDifficulty, SolveTimeout}
  }

  /** What can end a claim that was sent. */
  predicate AfterSending(e: Stop) {
    e in {TapeEnded, NoAnswer, OutcomeUnknown} || e.Unconfirmed?
  }

  /** Read, solve and re-check: a nonce for a challenge that is still live, or None when it went stale. */
  method FreshSolution(sha: Sha, node: Node) returns (r: Result<Option<u128>, Stop>)
    modifies node
    ensures old(node.events) <= node.events
    ensures r.Ok? ==> Challenges(node.events) == Challenges(old(node.events)) + 2
    ensures var t := Since(node.events, old(|node.events|));
            match r
            case Ok(nonce) =>
              && |t| == 2 && t[0].Seen? && t[1].Seen?
              && (nonce.Some? <==> t[0].challenge == t[1].challenge && t[1].pool >= 150)
              && (nonce.Some? ==> Supported(t[1].challenge) && Solves(sha, t[1].challenge, nonce.value))
            case Err(e) => Quiet(t) && BeforeSending(e)
    ensures Ripe(sha, old(node.tape)) ==> r.Ok? && r.value.Some? && node.tape == old(node.tape)[3..]
    ensures var tape := old(node.tape);
            && (r == Err(Depleted) <==> tape != [] && Live(tape[0]) && tape[0].pinata.value.balance < 150)
            && (r == Err(UnsupportedDifficulty) <==>
                  tape != [] && Live(tape[0]) && tape[0].pinata.value.balance >= 150 && Shown(tape[0]).difficulty > 3)
  {
    ghost var t0 := node.events;
    var first := node.ReadChallenge();
    if first.Err? {
      return Err(first.error);
    }
    var (pool, challenge) := first.value;
    OneMore(t0, Seen(pool, challenge));
    if pool < PRIZE {
      return Err(Depleted);
    }
    if !Supported(challenge) {
      return Err(UnsupportedDifficulty);
    }
    var solution := node.Solve(sha, challenge);
    if solution.Err? {
      return Err(solution.error);
    }
    var second := node.ReadChallenge();
    if second.Err? {
      return Err(second.error);
    }
    var (poolNow, latest) := second.value;
    OneMore(t0 + [Seen(pool, challenge)], Seen(poolNow, latest));
    r := Ok(if latest != challenge || poolNow < PRIZE then None else Some(solution.value));
  }

  method Attempt(sha: Sha, node: Node, before: u128) returns (r: Result<Round, Stop>)
    modifies node
    ensures old(node.events) <= node.events
    ensures var t := Since(node.events, old(|node.events|));
            && (r.Ok? ==> Challenges(node.events) == Challenges(old(node.events)) + 2)
            && (r.Ok? && r.value.Sent? ==> SendingRound(sha, t, before) && t[3].reply == Some(r.value.tx))
            && (r.Ok? && !r.value.Sent? ==> Quiet(t) && Clockless(t))
            && (r.Err? && Quiet(t) ==> BeforeSending(r.error))
            && (r.Err? && !Quiet(t) ==> r.error == NoAnswer && SendingRound(sha, t, before))
    ensures Ripe(sha, old(node.tape)) && Sendable(old(node.tape)[3..], before) ==>
              r == Ok(Sent(old(node.tape)[4].accepted.value)) && node.tape == old(node.tape)[5..]
  {
    hide Challenges, Solves, Supported;
    ghost var t0 := node.events;
    var solution := FreshSolution(sha, node);
    if solution.Err? {
      return Err(solution.error);
    }
    if solution.value.None? {
      return Ok(Stale);
    }
    ghost var t1 := node.events;
    r := SendUnlessMoved(node, before, solution.value.value);
    SinceSplits(t0, t1, node.events);
  }

  /** The balance is read once more; only if it is still the one known is the claim sent. */
  method SendUnlessMoved(node: Node, before: u128, solution: u128) returns (r: Result<Round, Stop>)
    modifies node
    ensures old(node.events) <= node.events && Challenges(node.events) == Challenges(old(node.events))
    ensures var t := Since(node.events, old(|node.events|));
            match r
            case Ok(Sent(tx)) => t == [Balance(before), Submit(solution, Some(tx))]
            case Ok(Moved(now)) => t == [Balance(now)] && now != before
            case Ok(Stale) => false
            case Err(e) =>
              (e in {TapeEnded, NoAnswer} && Quiet(t))
              || (e == NoAnswer && t == [Balance(before), Submit(solution, None)])
    ensures Sendable(old(node.tape), before) ==>
              r == Ok(Sent(old(node.tape)[1].accepted.value)) && node.tape == old(node.tape)[2..]
  {
    ghost var t0 := node.events;
    var current := node.ReadRecipient();
    if current.Err? {
      return Err(current.error);
    }
    OneMore(t0, Balance(current.value.balance));
    if current.value.balance != before {
      return Ok(Moved(current.value.balance));
    }
    ghost var t1 := node.events;
    var tx := node.SubmitClaim(solution);
    OneMore(t1, Submit(solution, if tx.Ok? then Some(tx.value) else None));
    r := if tx.Err? then Err(tx.error) else Ok(Sent(tx.value));
  }

  /** Looks that changed nothing: each at the clock, before the deadline, then at the balance, still the same. */
  predicate Waiting(t: seq<Event>, before: u128, deadline: nat) {
    && Quiet(t) && OnlyBalance(t, before) && Challenges(t) == 0
    && (t != [] ==> |t| >= 2 && t[0].Clock? && t[0].at < deadline && t[1].Balance?)
  }

  /** A look that ends the watch, and how. */
  predicate LastLook(u: seq<Event>, before: u128, deadline: nat, tx: string, stop: Option<Stop>) {
    match stop
    case None => |u| == 2 && u[0].Clock? && u[0].at < deadline && u[1] == Balance(Credited(before))
    case Some(OutcomeUnknown) =>
      |u| == 2 && u[0].Clock? && u[0].at < deadline
      && u[1].Balance? && u[1].amount != before && u[1].amount != Credited(before)
    case Some(Unconfirmed(x)) => x == tx && |u| == 1 && u[0].Clock? && u[0].at >= deadline
    case Some(e) => e in {TapeEnded, NoAnswer} && (u == [] || (|u| == 1 && u[0].Clock? && u[0].at < deadline))
  }

  /** What watching the balance leaves in the trace, by its outcome. */
  predicate Watched(t: seq<Event>, before: u128, deadline: nat, tx: string, stop: Option<Stop>) {
    && Quiet(t) && Challenges(t) == 0
    && match stop
       case None => t != [] && t[|t| - 1] == Balance(Credited(before)) && OnlyBalance(t[..|t| - 1], before)
       case Some(OutcomeUnknown) =>
         t != [] && t[|t| - 1].Balance? && t[|t| - 1].amount != before && t[|t| - 1].amount != Credited(before)
         && OnlyBalance(t[..|t| - 1], before)
       case Some(Unconfirmed(x)) =>
         x == tx && t != [] && t[|t| - 1].Clock? && t[|t| - 1].at >= deadline && OnlyBalance(t, before)
         && t[0].Clock? && (Unread(t) <==> t[0].at >= deadline)
       case Some(e) => e in {TapeEnded, NoAnswer}
  }

  lemma QuietOn(t: seq<Event>, e: Event)
    requires Quiet(t) && !e.Submit?
    ensures Quiet(t + [e])
  {
  }

  lemma BalancesOn(t: seq<Event>, e: Event, amount: u128)
    requires OnlyBalance(t, amount) && (e.Balance? ==> e.amount == amount)
    ensures OnlyBalance(t + [e], amount)
  {
  }

  /** A trace that begins with two events keeps them when it grows, so a balance stays read. */
  lemma HeadStays(t: seq<Event>, e: Event)
    requires |t| >= 2 && t[1].Balance?
    ensures (t + [e])[0] == t[0] && (t + [e])[1] == t[1] && !Unread(t + [e])
  {
    assert (t + [e])[1] == t[1];
  }

  /** A look at the clock leaves the rest as it was. */
  lemma ClockSeen(t: seq<Event>, e: Event, before: u128, deadline: nat)
    requires Waiting(t, before, deadline) && e.Clock?
    ensures Quiet(t + [e]) && OnlyBalance(t + [e], before) && Challenges(t + [e]) == 0
    ensures t != [] ==> (t + [e])[0] == t[0] && t[0].at < deadline && !Unread(t + [e])
  {
    hide Quiet, OnlyBalance, Challenges, Unread;
    OneMore(t, e);
    QuietOn(t, e);
    BalancesOn(t, e, before);
    if t != [] {
      HeadStays(t, e);
    }
  }

  lemma BalanceSeen(t: seq<Event>, e: Event, before: u128)
    requires Quiet(t) && OnlyBalance(t, before) && Challenges(t) == 0 && e.Balance?
    ensures Quiet(t + [e]) && Challenges(t + [e]) == 0 && (t + [e])[..|t + [e]| - 1] == t
  {
    hide Quiet, OnlyBalance, Challenges;
    OneMore(t, e);
    QuietOn(t, e);
  }

  lemma WatchEnds(t: seq<Event>, u: seq<Event>, before: u128, deadline: nat, tx: string, stop: Option<Stop>)
    requires Waiting(t, before, deadline) && LastLook(u, before, deadline, tx, stop)
    ensures Watched(t + u, before, deadline, tx, stop)
  {
    hide Quiet, OnlyBalance, Challenges, Unread;
    if u == [] {
      assert t + u == t;
    } else if |u| == 1 {
      assert u == [u[0]];
      ClockWatched(t, u[0], before, deadline, tx, stop);
    } else {
      ClockSeen(t, u[0], before, deadline);
      BalanceSeen(t + [u[0]], u[1], before);
      assert t + u == (t + [u[0]]) + [u[1]];
    }
  }

  lemma ClockWatched(t: seq<Event>, e: Event, before: u128, deadline: nat, tx: string, stop: Option<Stop>)
    requires Waiting(t, before, deadline) && LastLook([e], before, deadline, tx, stop)
    ensures Watched(t + [e], before, deadline, tx, stop)
  {
    hide Quiet, OnlyBalance, Challenges;
    ClockSeen(t, e, before, deadline);
    assert (t + [e])[|t|] == e;
    if t == [] {
      assert t + [e] == [e];
    }
  }

  lemma StartsWaiting(before: u128, deadline: nat)
    ensures Waiting([], before, deadline)
  {
  }

  lemma WaitsOn(t: seq<Event>, u: seq<Event>, before: u128, deadline: nat)
    requires Waiting(t, before, deadline) && |u| == 2 && u[0].Clock? && u[0].at < deadline && u[1] == Balance(before)
    ensures Waiting(t + u, before, deadline)
  {
    hide Quiet, OnlyBalance, Challenges;
    ClockSeen(t, u[0], before, deadline);
    BalanceSeen(t + [u[0]], u[1], before);
    BalancesOn(t + [u[0]], u[1], before);
    assert t + u == (t + [u[0]]) + [u[1]];
  }

  /** The first look is in time and finds the credit. */
  predicate CreditAtOnce(tape: seq<Moment>, before: u128, deadline: nat) {
    |tape| >= 2 && tape[0].clock < deadline && tape[1].winner.Some?
    && tape[1].winner.value.balance == (before + 150) % U128_RANGE
  }

  /** One look: at the clock, then at the balance. */
  method Look(node: Node, before: u128, deadline: nat, tx: string) returns (done: bool, stop: Option<Stop>)
    modifies node
    ensures old(node.events) <= node.events
    ensures var u := Since(node.events, old(|node.events|));
            && (done ==> LastLook(u, before, deadline, tx, stop))
            && (!done ==> |u| == 2 && u[0].Clock? && u[0].at < deadline && u[1] == Balance(before))
            && (old(node.tape) != [] && old(node.tape)[0].clock >= deadline ==>
                  done && stop == Some(Unconfirmed(tx)) && u == [Clock(old(node.tape)[0].clock)])
            && (old(node.tape) != [] ==> u != [] && u[0] == Clock(old(node.tape)[0].clock))
    ensures !done ==> |node.tape| < old(|node.tape|)
    ensures CreditAtOnce(old(node.tape), before, deadline) ==> done && stop == None
    ensures stop.Some? ==> AfterSending(stop.value)
  {
    ghost var t := node.events;
    var now := node.Now();
    if now.Err? {
      return true, Some(now.error);
    }
    Grown(t, [], Clock(now.value));
    if now.value >= deadline {
      return true, Some(Unconfirmed(tx));
    }
    var account := node.ReadRecipient();
    if account.Err? {
      return true, Some(account.error);
    }
    Grown(t, [Clock(now.value)], Balance(account.value.balance));
    if account.value.balance == Credited(before) {
      return true, None;
    }
    if account.value.balance != before {
      return true, Some(OutcomeUnknown);
    }
    done, stop := false, None;
  }

  /**
   Watching the balance until the credit shows, something else moves it, or the deadline has passed. When
   the deadline ends it, the balance was never read if and only if the first look at the clock was already
   past it; and a first look past it always ends it so.
   */
  method Reconcile(node: Node, before: u128, deadline: nat, tx: string) returns (stop: Option<Stop>)
    modifies node
    ensures old(node.events) <= node.events
    ensures var t := Since(node.events, old(|node.events|));
            && Watched(t, before, deadline, tx, stop)
            && (old(node.tape) != [] && old(node.tape)[0].clock >= deadline ==>
                  stop == Some(Unconfirmed(tx)) && t == [Clock(old(node.tape)[0].clock)])
    ensures CreditAtOnce(old(node.tape), before, deadline) ==> stop == None
    ensures stop.Some? ==> AfterSending(stop.value)
  {
    hide Watched, Waiting, LastLook;
    ghost var t0, t := node.events, [];
    Between(t0, t, []);
    StartsWaiting(before, deadline);
    while true
      invariant node.events == t0 + t && Waiting(t, before, deadline)
      invariant t == [] ==> node.tape == old(node.tape)
      invariant t != [] ==> !(old(node.tape) != [] && old(node.tape)[0].clock >= deadline)
      invariant t != [] ==> !CreditAtOnce(old(node.tape), before, deadline)
      decreases |node.tape|
    {
      var done, end := Look(node, before, deadline, tx);
      ghost var u := Since(node.events, |t0 + t|);
      assert node.events == t0 + t + u;
      Between(t0, t, u);
      if done {
        WatchEnds(t, u, before, deadline, tx, end);
        return end;
      }
      WaitsOn(t, u, before, deadline);
      t := t + u;
    }
  }

  /** Events regrouped: a start, some that followed, some more. */
  lemma Between(t0: seq<Event>, t: seq<Event>, u: seq<Event>)
    ensures t0 + t + u == t0 + (t + u) && Since(t0 + t + u, |t0|) == t + u && Since(t0 + t, |t0|) == t && t0 + [] == t0
  {
  }

  lemma Grown(t0: seq<Event>, t: seq<Event>, e: Event)
    ensures (t0 + t) + [e] == t0 + (t + [e]) && Since(t0 + t, |t0|) == t && Since(t0 + (t + [e]), |t0|) == t + [e]
    ensures (t + [e])[..|t|] == t && t0 + [] == t0
  {
  }

  /** Every balance seen is the given one. */
  predicate OnlyBalance(t: seq<Event>, amount: u128) {
    forall k :: 0 <= k < |t| && t[k].Balance? ==> t[k].amount == amount
  }

  /** Indices of a trace made of three pieces. */
  lemma Pieces(a: seq<Event>, b: seq<Event>, c: seq<Event>, k: nat)
    requires k < |a + b + c|
    ensures (a + b + c)[k] == if k < |a| then a[k] else if k < |a| + |b| then b[k - |a|] else c[k - |a| - |b|]
  {
  }

  lemma SentOnce(sha: Sha, quiet: seq<Event>, round: seq<Event>, tail: seq<Event>, before: u128)
    requires Quiet(quiet) && SendingRound(sha, round, before) && Quiet(tail)
    ensures var t := quiet + round + tail;
            var k := |quiet| + 3;
            OnlySubmission(t, k) && JustifiedAt(sha, t, k) && t[k - 1] == Balance(before)
  {
    var t := quiet + round + tail;
    var k := |quiet| + 3;
    forall j | 0 <= j < |t| && t[j].Submit?
      ensures j == k
    {
      Pieces(quiet, round, tail, j);
    }
  }

  lemma CreditAfter(quiet: seq<Event>, round: seq<Event>, tail: seq<Event>, receipt: Receipt)
    requires |round| == 4 && OnlySubmission(quiet + round + tail, |quiet| + 3) && round[2] == Balance(receipt.before)
    requires round[3] == (quiet + round + tail)[|quiet| + 3] && round[3].reply == Some(receipt.tx)
    requires tail != [] && tail[|tail| - 1] == Balance(receipt.expected) && receipt.expected == Credited(receipt.before)
    requires OnlyBalance(tail[..|tail| - 1], receipt.before)
    ensures CreditSeen(quiet + round + tail, receipt)
  {
    var t := quiet + round + tail;
    var k := |quiet| + 3;
    assert t[k - 1] == round[2];
    forall j | k < j < |t| - 1 && t[j].Balance?
      ensures t[j].amount == t[k - 1].amount
    {
      Pieces(quiet, round, tail, j);
      assert tail[j - k - 1] == tail[..|tail| - 1][j - k - 1];
    }
    assert Unmoved(t, k, |t| - 1);
  }

  /**
   The deadline was fixed at j, by the last look at the clock before the submission at k, and the last
   event is a look past it. The balance was not read after the submission if and only if the first look
   after it was already past the deadline.
   */
  ghost predicate DeadlinePassed(t: seq<Event>, tx: string) {
    exists j, k :: 0 <= j < k < |t| - 1 && Late(t, j, k, tx)
  }

  predicate Late(t: seq<Event>, j: nat, k: nat, tx: string)
    requires j < k < |t| - 1
  {
    && t[j].Clock? && Clockless(t[j + 1..k]) && OnlySubmission(t, k) && t[k].reply == Some(tx)
    && t[|t| - 1].Clock? && t[|t| - 1].at >= t[j].at + 90
    && t[k + 1].Clock? && (Unread(t[k + 1..]) <==> t[k + 1].at >= t[j].at + 90)
  }

  /** What the outcome of a claim says about the trace it leaves. */
  ghost predicate Lawful(sha: Sha, t: seq<Event>, r: Claimed) {
    && Safe(sha, t)
    && match r
       case Ok(receipt) =>
         CreditSeen(t, receipt) && receipt.attempt <= 3 && Challenges(t) == 2 * (receipt.attempt + 1)
       case Err(OutcomeUnknown) => !Quiet(t)
       case Err(Unconfirmed(tx)) => DeadlinePassed(t, tx)
       case Err(Rotating) => Quiet(t) && Challenges(t) == 8
       case Err(e) => e in {TapeEnded, NoAnswer} || Quiet(t)
  }

  lemma {:induction false} ChallengesAppend(a: seq<Event>, b: seq<Event>)
    ensures Challenges(a + b) == Challenges(a) + Challenges(b)
    decreases |b|
  {
    if b == [] {
      assert a + b == a;
    } else {
      ChallengesAppend(a, b[..|b| - 1]);
      assert (a + b)[..|a + b| - 1] == a + b[..|b| - 1];
    }
  }

  lemma CreditedLawful(sha: Sha, quiet: seq<Event>, round: seq<Event>, tail: seq<Event>, receipt: Receipt)
    requires Quiet(quiet) && SendingRound(sha, round, receipt.before) && receipt.attempt <= MAX_STALE_RETRIES
    requires Challenges(quiet + round + tail) == 2 * (receipt.attempt + 1)
    requires receipt.expected == Credited(receipt.before)
    requires Quiet(tail) && tail != [] && tail[|tail| - 1] == Balance(receipt.expected)
    requires OnlyBalance(tail[..|tail| - 1], receipt.before) && round[3].reply == Some(receipt.tx)
    ensures Lawful(sha, quiet + round + tail, Ok(receipt))
  {
    SentOnce(sha, quiet, round, tail, receipt.before);
    assert (quiet + round + tail)[|quiet| + 3] == round[3];
    CreditAfter(quiet, round, tail, receipt);
  }

  lemma LateLawful(sha: Sha, quiet: seq<Event>, round: seq<Event>, tail: seq<Event>, before: u128, start: nat,
                   began: nat, tx: string)
    requires Quiet(quiet) && SendingRound(sha, round, before) && round[3].reply == Some(tx)
    requires start < |quiet| && quiet[start] == Clock(began) && Clockless(quiet[start + 1..])
    requires Watched(tail, before, began + RECONCILE_DEADLINE, tx, Some(Unconfirmed(tx)))
    ensures Lawful(sha, quiet + round + tail, Err(Unconfirmed(tx)))
  {
    SentOnce(sha, quiet, round, tail, before);
    assert Clockless(quiet[start + 1..] + round);
    LateUnconfirmed(quiet, round, tail, start, began, tx);
  }

  lemma OtherLawful(sha: Sha, quiet: seq<Event>, round: seq<Event>, tail: seq<Event>, before: u128, e: Stop)
    requires Quiet(quiet) && SendingRound(sha, round, before) && Quiet(tail)
             && e in {TapeEnded, NoAnswer, OutcomeUnknown}
    ensures Lawful(sha, quiet + round + tail, Err(e))
  {
    SentOnce(sha, quiet, round, tail, before);
  }

  /** The outcome after a claim was sent in some round, and the balance then watched. */
  lemma SentLawful(sha: Sha, quiet: seq<Event>, round: seq<Event>, tail: seq<Event>, before: u128, start: nat,
                   began: nat, attempt: nat, tx: string, stop: Option<Stop>)
    requires Quiet(quiet) && SendingRound(sha, round, before) && attempt <= MAX_STALE_RETRIES
    requires Challenges(quiet + round) == 2 * (attempt + 1) && round[3].reply == Some(tx)
    requires start < |quiet| && quiet[start] == Clock(began) && Clockless(quiet[start + 1..])
    requires Watched(tail, before, began + RECONCILE_DEADLINE, tx, stop)
    ensures Lawful(sha, quiet + round + tail,
                   if stop.Some? then Err(stop.value) else Ok(Receipt(before, Credited(before), tx, attempt)))
  {
    hide Lawful, SendingRound;
    match stop
    case None =>
      ChallengesAppend(quiet + round, tail);
      CreditedLawful(sha, quiet, round, tail, Receipt(before, Credited(before), tx, attempt));
    case Some(Unconfirmed(_)) => LateLawful(sha, quiet, round, tail, before, start, began, tx);
    case Some(e) => OtherLawful(sha, quiet, round, tail, before, e);
  }

  lemma LateUnconfirmed(quiet: seq<Event>, round: seq<Event>, tail: seq<Event>, start: nat, began: nat,
                        tx: string)
    requires |round| == 4 && round[3].Submit? && round[3].reply == Some(tx)
    requires start < |quiet| && quiet[start] == Clock(began) && Clockless(quiet[start + 1..] + round)
    requires OnlySubmission(quiet + round + tail, |quiet| + 3)
    requires tail != [] && tail[|tail| - 1].Clock? && tail[|tail| - 1].at >= began + RECONCILE_DEADLINE
    requires tail[0].Clock? && (Unread(tail) <==> tail[0].at >= began + RECONCILE_DEADLINE)
    ensures DeadlinePassed(quiet + round + tail, tx)
  {
    var t := quiet + round + tail;
    var k := |quiet| + 3;
    assert t[start] == Clock(began) && t[|t| - 1] == tail[|tail| - 1];
    assert t[k + 1..] == tail;
    assert t[start + 1..k] == (quiet[start + 1..] + round)[..|quiet| + 2 - start];
    assert t[k] == round[3];
    assert Late(t, start, k, tx);
  }

  /** The account belongs to another program. */
  predicate Foreign(tape: seq<Moment>) {
    tape != [] && tape[0].winner.Some? && tape[0].winner.value.eligibility == WrongOwner
  }

  /** The account is unused and the wallet does not hold its key. */
  predicate Keyless(tape: seq<Moment>) {
    |tape| > 1 && tape[0].winner.Some? && tape[0].winner.value.eligibility == Uninitialized && !tape[1].holdsKey
  }

  /** At some moment the account could receive. */
  predicate EverKnown(tape: seq<Moment>) {
    exists k :: 0 <= k < |tape| && Known(tape[k])
  }

  /** Three moments at which the recipient can receive, its balance is read and the clock is. */
  predicate Opening(tape: seq<Moment>) {
    |tape| >= 3 && Known(tape[0]) && tape[1].winner.Some?
  }

  /** Moments of a round that sends its claim, and of a first look at the clock after it, past the deadline. */
  predicate LateRound(sha: Sha, tape: seq<Moment>, before: u128, deadline: nat) {
    |tape| >= 6 && Ripe(sha, tape) && Sendable(tape[3..], before) && tape[5].clock >= deadline
  }

  /** Moments of a round that sends its claim, and of a first look after it, in time, that finds the credit. */
  predicate PaidRound(sha: Sha, tape: seq<Moment>, before: u128, deadline: nat) {
    |tape| >= 7 && Ripe(sha, tape) && Sendable(tape[3..], before) && CreditAtOnce(tape[5..], before, deadline)
  }

  /** The balance was not read after the submission: a look at the clock is all that follows it. */
  predicate Unwatched(t: seq<Event>) {
    |t| >= 2 && t[|t| - 2].Submit? && t[|t| - 1].Clock?
  }

  /** Everything before the first round: the recipient, its balance, and the clock that fixes the deadline. */
  method Open(node: Node) returns (r: Result<(u128, nat), Stop>)
    requires node.events == []
    modifies node
    ensures r == Err(ForeignAccount) <==> Foreign(old(node.tape))
    ensures r == Err(KeyMissing) <==> Keyless(old(node.tape))
    ensures r.Ok? ==> EverKnown(old(node.tape))
    ensures Calm(node.events)
    ensures r.Ok? ==> node.events != [] && node.events[|node.events| - 1] == Clock(r.value.1)
    ensures r.Err? ==> r.error in {TapeEnded, NoAnswer, KeyMissing, InitUnconfirmed, ForeignAccount}
    ensures Opening(old(node.tape)) ==>
              r == Ok((old(node.tape)[1].winner.value.balance, old(node.tape)[2].clock))
              && node.tape == old(node.tape)[3..]
  {
    var refused := Prepare(node);
    assert Since(node.events, 0) == node.events;
    if refused.Some? {
      return Err(refused.value);
    }
    var winner := node.ReadRecipient();
    if winner.Err? {
      return Err(winner.error);
    }
    var began := node.Now();
    if began.Err? {
      return Err(began.error);
    }
    r := Ok((winner.value.balance, began.value));
  }

  /** The outcome when a round ends the claim before the balance is watched. */
  lemma FailedLawful(sha: Sha, quiet: seq<Event>, round: seq<Event>, before: u128, e: Stop)
    requires Quiet(quiet) && BeforeSending(e)
    requires Quiet(round) || (e == NoAnswer && SendingRound(sha, round, before))
    ensures Lawful(sha, quiet + round, Err(e))
  {
    if !Quiet(round) {
      SentOnce(sha, quiet, round, [], before);
      assert quiet + round + [] == quiet + round;
    }
  }

  /** One round of the claim: it ends the claim, or gives the balance to go on with. */
  method ClaimRound(sha: Sha, node: Node, before: u128, began: nat, attempt: nat, ghost start: nat)
    returns (done: Option<Claimed>, balance: u128)
    requires Quiet(node.events) && Challenges(node.events) == 2 * attempt && attempt <= MAX_STALE_RETRIES
    requires start < |node.events| && node.events[start] == Clock(began) && Clockless(node.events[start + 1..])
    modifies node
    ensures old(node.events) <= node.events
    ensures done.Some? ==> Lawful(sha, node.events, done.value)
    ensures done.Some? && done.value.Err? ==> BeforeSending(done.value.error) || AfterSending(done.value.error)
    ensures done.None? ==> Quiet(node.events) && Challenges(node.events) == 2 * (attempt + 1)
                           && Clockless(node.events[start + 1..])
    ensures LateRound(sha, old(node.tape), before, began + RECONCILE_DEADLINE) ==>
              done == Some(Err(Unconfirmed(old(node.tape)[4].accepted.value))) && Unwatched(node.events)
    ensures PaidRound(sha, old(node.tape), before, began + RECONCILE_DEADLINE) ==>
              done == Some(Ok(Receipt(before, (before + 150) % U128_RANGE, old(node.tape)[4].accepted.value, attempt)))
  {
    hide Lawful, Watched, Challenges, Solves;
    ghost var quiet := node.events;
    balance := before;
    var round := Attempt(sha, node, before);
    ghost var sent := Since(node.events, |quiet|);
    assert node.events == quiet + sent;
    assert node.events[start + 1..] == quiet[start + 1..] + sent;
    if round.Err? {
      FailedLawful(sha, quiet, sent, before, round.error);
      return Some(Err(round.error)), before;
    }
    match round.value {
      case Stale => done := None;
      case Moved(now) => done, balance := None, now;
      case Sent(tx) =>
        var stop := Reconcile(node, before, began + RECONCILE_DEADLINE, tx);
        ghost var tail := Since(node.events, |quiet| + 4);
        assert node.events == quiet + sent + tail;
        SentLawful(sha, quiet, sent, tail, before, start, began, attempt, tx, stop);
        done := Some(if stop.Some? then Err(stop.value) else Ok(Receipt(before, Credited(before), tx, attempt)));
    }
  }

  /** Moments of a whole claim whose first round ends so. */
  predicate Overdue(sha: Sha, tape: seq<Moment>) {
    Opening(tape) && LateRound(sha, tape[3..], tape[1].winner.value.balance, tape[2].clock + RECONCILE_DEADLINE)
  }

  /** Moments of a whole claim that is credited in its first round. */
  predicate Paid(sha: Sha, tape: seq<Moment>) {
    Opening(tape) && PaidRound(sha, tape[3..], tape[1].winner.value.balance, tape[2].clock + RECONCILE_DEADLINE)
  }

  /**
   One claim, in any environment. At most one transaction is submitted, and only with a nonce that
   solves the challenge seen at the re-check, right after reading the balance. Success is reported only
   when that balance was then seen exactly one prize higher, with nothing else seen in between, after at
   most three retries. A failure that is not an unanswered request tells whether a claim was sent. When
   the first round runs as overdue moments let it, the claim ends without a look at the balance it sent for;
   when it runs as paid ones do, with the receipt. An account of another program is refused, and so is an
   unused one without its key; nothing is sent for an account that was never seen able to receive.
   */
  method Claim(sha: Sha, node: Node) returns (r: Claimed)
    requires node.events == []
    modifies node
    ensures Lawful(sha, node.events, r)
    ensures Overdue(sha, old(node.tape)) ==>
              r == Err(Unconfirmed(old(node.tape)[7].accepted.value)) && Unwatched(node.events)
    ensures Paid(sha, old(node.tape)) ==>
              var before := old(node.tape)[1].winner.value.balance;
              r == Ok(Receipt(before, (before + 150) % U128_RANGE, old(node.tape)[7].accepted.value, 0))
    ensures Foreign(old(node.tape)) <==> r == Err(ForeignAccount)
    ensures Keyless(old(node.tape)) <==> r == Err(KeyMissing)
    ensures !Quiet(node.events) ==> EverKnown(old(node.tape))
  {
    ghost var tape := node.tape;
    var known := Open(node);
    CalmCounts(node.events);
    if known.Err? {
      return Err(known.error);
    }
    var (balanceBefore, began) := known.value;
    ghost var start := |node.events| - 1;
    var attempt := 0;
    while attempt <= MAX_STALE_RETRIES
      invariant 0 <= attempt <= MAX_STALE_RETRIES + 1 && Quiet(node.events)
      invariant Challenges(node.events) == 2 * attempt
      invariant start < |node.events| && node.events[start] == Clock(began) && Clockless(node.events[start + 1..])
      invariant EverKnown(tape)
      invariant Overdue(sha, tape) || Paid(sha, tape) ==>
                  && attempt == 0 && node.tape == tape[3..]
                  && balanceBefore == tape[1].winner.value.balance && began == tape[2].clock
    {
      var done, balance := ClaimRound(sha, node, balanceBefore, began, attempt, start);
      if done.Some? {
        return done.value;
      }
      balanceBefore, attempt := balance, attempt + 1;
    }
    r := Err(Rotating);
  }

  /**
   From the very start of a claim: the node takes so long to accept the submission that the first look at
   the clock is past the deadline. The claim ends unconfirmed, and the balance was never read after it.
   */
  method OverdueClaim(sha: Sha, seed: Id32) returns (r: Claimed, events: seq<Event>)
    ensures r == Err(Unconfirmed("tx")) && Unwatched(events)
  {
    var usual := Moment(0, Some(Pinata(true, PRIZE, [0] + seed)), Some(Recipient(Eligible, 0)), true, Some("tx"), 0, 1);
    var late := usual.(clock := RECONCILE_DEADLINE);
    var tape := [usual, usual, usual, usual, usual, usual, usual, usual, late];
    assert Parse([0] + seed) == Some(Challenge(0, seed)) by {
      assert ([0] + seed)[1..] == seed;
    }
    assert Ripe(sha, tape[3..]) && Sendable(tape[6..], 0) && Overdue(sha, tape);
    var node := new Node(tape);
    r := Claim(sha, node);
    events := node.events;
  }
}
