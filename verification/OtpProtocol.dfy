/** Concurrent verifiers over one table of codes, with registrations and clean-ups in between. */
module OtpProtocol {
  import opened Common
  import opened OtpSpec

  /** A verification that has passed its checks and has not written yet. */
  datatype Verifier = Verifier(code: Id, correct: bool)

  datatype Event = Win(code: Id) | Voided(codes: set<Id>)

  /** `pending` holds the registration requests that have passed the count and have not created their code yet, with
      their addresses; `made` remembers every code ever created, as it was created. */
  datatype Sys = Sys(
    now: int,
    codes: Codes,
    inFlight: map<Id, Verifier>,
    pending: map<Id, string>,
    log: seq<Event>,
    made: Codes)

  /** Register is a registration that nothing interleaves with; Count, Invalidate and Create are its three steps. A
      request may skip Invalidate, whose failure is only logged. */
  datatype Op =
    | Tick(time: int)
    | Register(email: string, id: Id)
    | Count(request: Id, email: string)
    | Invalidate(request: Id)
    | Create(request: Id, id: Id)
    | Begin(verifier: Id, code: Id, correct: bool)
    | Finish(verifier: Id)
    | Cleanup

  function Initial(now: int): Sys {
    Sys(now, map[], map[], map[], [], map[])
  }

  function Next(s: Sys, op: Op): Sys {
    match op
    case Tick(time) => if time < s.now then s else s.(now := time)
    case Register(email, id) =>
      if id in s.made || RateLimited(s.codes, email, s.now) then s
      else s.(codes := Registered(s.codes, email, s.now, id),
              log := s.log + [Voided(LiveIds(s.codes, email, s.now))],
              made := s.made[id := NewCode(email, s.now)])
    case Count(request, email) =>
      if request in s.pending || RateLimited(s.codes, email, s.now) then s
      else s.(pending := s.pending[request := email])
    case Invalidate(request) =>
      if request !in s.pending then s
      else
        var email := s.pending[request];
        s.(codes := Invalidated(s.codes, email, s.now), log := s.log + [Voided(LiveIds(s.codes, email, s.now))])
    case Create(request, id) =>
      if request !in s.pending || id in s.made then s
      else
        var otp := NewCode(s.pending[request], s.now);
        s.(codes := s.codes[id := otp], pending := s.pending - {request}, made := s.made[id := otp])
    case Begin(v, id, correct) =>
      if v in s.inFlight || !Admits(s.codes, id, s.now) then s
      else s.(inFlight := s.inFlight[v := Verifier(id, correct)])
    case Finish(v) =>
      if v !in s.inFlight then s
      else
        var x := s.inFlight[v];
        s.(codes := Finished(s.codes, x.code, x.correct),
           inFlight := s.inFlight - {v},
           log := if Wins(s.codes, x.code, x.correct) then s.log + [Win(x.code)] else s.log)
    case Cleanup => s.(codes := Unexpired(s.codes, s.now))
  }

  function Run(s: Sys, ops: seq<Op>): Sys
    decreases |ops|
  {
    if ops == [] then s else Next(Run(s, ops[..|ops| - 1]), ops[|ops| - 1])
  }

  // ----- At most one success per code, none after an invalidation -----

  ghost predicate SpentBy(e: Event, c: Id) {
    e == Win(c) || (e.Voided? && c in e.codes)
  }

  /** No code is won after it was won or invalidated. */
  ghost predicate WinsOnce(log: seq<Event>) {
    forall i, j | 0 <= i < j < |log| && log[j].Win? :: !SpentBy(log[i], log[j].code)
  }

  /** Everything but the use and the attempts of a code is as it was created. */
  predicate AsMade(made: Code, c: Code) {
    made.email == c.email && made.createdAt == c.createdAt && made.expiresAt == c.expiresAt
  }

  /** Codes are filed among those ever made, and spent codes stay used or are gone. */
  ghost predicate Tracked(s: Sys) {
    && (forall c | c in s.codes :: c in s.made && AsMade(s.made[c], s.codes[c]))
    && (forall c | c in s.made ::
          s.made[c].createdAt <= s.now && s.made[c].expiresAt == s.made[c].createdAt + CODE_EXPIRY)
  }

  ghost predicate SpentIsUsed(s: Sys) {
    forall i, c | 0 <= i < |s.log| && SpentBy(s.log[i], c) :: c in s.made && (c in s.codes ==> s.codes[c].used)
  }

  lemma TrackedStep(s: Sys, op: Op)
    requires Tracked(s)
    ensures Tracked(Next(s, op))
  {
  }

  lemma SpentStep(s: Sys, op: Op)
    requires Tracked(s) && SpentIsUsed(s)
    ensures SpentIsUsed(Next(s, op))
  {
  }

  lemma WinStep(s: Sys, op: Op)
    requires SpentIsUsed(s) && WinsOnce(s.log)
    ensures WinsOnce(Next(s, op).log)
  {
  }

  lemma {:induction false} RunIsTracked(now: int, ops: seq<Op>)
    ensures var s := Run(Initial(now), ops); Tracked(s) && SpentIsUsed(s) && WinsOnce(s.log)
  {
    if ops != [] {
      var front, last := ops[..|ops| - 1], ops[|ops| - 1];
      RunIsTracked(now, front);
      TrackedStep(Run(Initial(now), front), last);
      SpentStep(Run(Initial(now), front), last);
      WinStep(Run(Initial(now), front), last);
    }
  }

  /** Whatever the interleaving, a code is won at most once, and never after it was invalidated. */
  lemma WinsAreUnique(now: int, ops: seq<Op>, i: nat, j: nat, c: Id)
    requires var log := Run(Initial(now), ops).log; i < j < |log| && log[j] == Win(c)
    ensures var log := Run(Initial(now), ops).log; log[i] != Win(c) && !(log[i].Voided? && c in log[i].codes)
  {
    RunIsTracked(now, ops);
  }

  // ----- Which codes can still be won -----

  ghost predicate CanWin(s: Sys, c: Id) {
    exists ops, j :: WonIn(s, ops, j, c)
  }

  /** Event j of the continuation is the success of a verification of the code. */
  ghost predicate WonIn(s: Sys, ops: seq<Op>, j: nat, c: Id) {
    |s.log| <= j < |Run(s, ops).log| && Run(s, ops).log[j] == Win(c)
  }

  ghost predicate Correcting(s: Sys, c: Id) {
    exists v :: v in s.inFlight && s.inFlight[v] == Verifier(c, true)
  }

  /** Unused, and either a new verification would be admitted or a right one has already been. */
  ghost predicate Winnable(s: Sys, c: Id) {
    c in s.codes && !s.codes[c].used && (Admits(s.codes, c, s.now) || Correcting(s, c))
  }

  lemma UnwinnableStep(s: Sys, op: Op, c: Id)
    requires c in s.made && !Winnable(s, c)
    ensures var t := Next(s, op); c in t.made && !Winnable(t, c)
    ensures var t := Next(s, op); |s.log| <= |t.log| && forall j | |s.log| <= j < |t.log| :: t.log[j] != Win(c)
    ensures forall j | 0 <= j < |s.log| :: Next(s, op).log[j] == s.log[j]
  {
    var t := Next(s, op);
    if c in t.codes && !t.codes[c].used {
      assert c in s.codes && !s.codes[c].used && !Correcting(s, c);
      forall v | v in t.inFlight ensures t.inFlight[v] != Verifier(c, true) {
        assert v in s.inFlight ==> s.inFlight[v] != Verifier(c, true);
      }
    }
  }

  lemma {:induction false} UnwinnableStays(s: Sys, ops: seq<Op>, c: Id)
    requires c in s.made && !Winnable(s, c)
    ensures var t := Run(s, ops); c in t.made && !Winnable(t, c)
    ensures var t := Run(s, ops); |s.log| <= |t.log| && forall j | |s.log| <= j < |t.log| :: t.log[j] != Win(c)
  {
    if ops != [] {
      var front := ops[..|ops| - 1];
      UnwinnableStays(s, front, c);
      UnwinnableStep(Run(s, front), ops[|ops| - 1], c);
    }
  }

  lemma FinishWins(s: Sys, v: Id, c: Id)
    requires v in s.inFlight && s.inFlight[v] == Verifier(c, true) && c in s.codes && !s.codes[c].used
    ensures Next(s, Finish(v)).log == s.log + [Win(c)]
  {
  }

  /** A code can still be won if and only if it is unused and either admissible or already admitted with the right
      code; whatever happens in between, nothing else can make it win. */
  lemma CanWinIff(s: Sys, c: Id)
    requires c in s.made
    ensures CanWin(s, c) <==> Winnable(s, c)
  {
    if CanWin(s, c) && !Winnable(s, c) {
      var ops, j :| WonIn(s, ops, j, c);
      UnwinnableStays(s, ops, c);
    }
    if Winnable(s, c) {
      if v :| v in s.inFlight && s.inFlight[v] == Verifier(c, true) {
        FinishWins(s, v, c);
        RunOne(s, Finish(v));
        assert WonIn(s, [Finish(v)], |s.log|, c);
      } else {
        var v := AboveAll(s.inFlight.Keys);
        assert v !in s.inFlight.Keys;
        FinishWins(Next(s, Begin(v, c, true)), v, c);
        RunTwo(s, Begin(v, c, true), Finish(v));
        assert WonIn(s, [Begin(v, c, true), Finish(v)], |s.log|, c);
      }
    }
  }

  /** After a registration for its address an older code can still be won if and only if it is unused, has expired, and
      a verification with the right code was admitted before it did. */
  lemma LateWinIff(s: Sys, email: string, id: Id, c: Id)
    requires Tracked(s) && id !in s.made && !RateLimited(s.codes, email, s.now)
    requires c in s.made && s.made[c].email == email
    ensures CanWin(Next(s, Register(email, id)), c) <==>
              c in s.codes && !s.codes[c].used && IsExpired(s.codes[c], s.now) && Correcting(s, c)
  {
    var t := Next(s, Register(email, id));
    CanWinIff(t, c);
    assert t.inFlight == s.inFlight && (Correcting(t, c) <==> Correcting(s, c));
  }

  lemma RunOne(s: Sys, a: Op)
    ensures Run(s, [a]) == Next(s, a)
  {
    assert [a][..0] == [];
  }

  lemma RunTwo(s: Sys, a: Op, b: Op)
    ensures Run(s, [a, b]) == Next(Next(s, a), b)
  {
    assert [a, b][..1] == [a] && [a][..0] == [];
    assert Run(s, [a]) == Next(s, a);
  }

  lemma RunFour(s: Sys, a: Op, b: Op, c: Op, d: Op)
    ensures Run(s, [a, b, c, d]) == Next(Next(Next(Next(s, a), b), c), d)
  {
    RunTwo(s, a, b);
    assert [a, b, c][..2] == [a, b] && [a, b, c, d][..3] == [a, b, c];
    assert Run(s, [a, b, c]) == Next(Run(s, [a, b]), c);
  }

  /** And that does happen: checked before it expired, written after its successor was issued. */
  lemma SupersededCodeCanWin()
    ensures var s := Run(Initial(0), [Register("a", 1), Begin(0, 1, true), Tick(CODE_EXPIRY + 1), Register("a", 2),
                                      Finish(0)]);
            s.log == [Voided({}), Voided({}), Win(1)] && 2 in s.codes && Live(s.codes[2], s.now)
  {
    var s1 := Next(Initial(0), Register("a", 1));
    var s2 := Next(s1, Begin(0, 1, true));
    var s3 := Next(s2, Tick(CODE_EXPIRY + 1));
    assert RecentIds(map[], "a", -HOUR) == {};
    assert LiveIds(map[], "a", 0) == {};
    assert Invalidated(map[], "a", 0) == map[];
    assert s1.codes == map[1 := NewCode("a", 0)];
    assert LiveIds(s3.codes, "a", s3.now) == {};
    assert RecentIds(s3.codes, "a", s3.now - HOUR) == {1};
    var ops := [Register("a", 1), Begin(0, 1, true), Tick(CODE_EXPIRY + 1), Register("a", 2), Finish(0)];
    RunFour(Initial(0), ops[0], ops[1], ops[2], ops[3]);
    assert ops[..4] == [ops[0], ops[1], ops[2], ops[3]];
  }

  // ----- The attempts counter -----

  /** The verifiers about to count a wrong try of a code. */
  function Wrong(s: Sys, c: Id): set<Id> {
    set v | v in s.inFlight && s.inFlight[v] == Verifier(c, false)
  }

  lemma WrongAtMost(s: Sys, c: Id)
    ensures |Wrong(s, c)| <= |s.inFlight|
  {
    SubsetSize(Wrong(s, c), s.inFlight.Keys);
  }

  predicate CountsWrong(s: Sys, op: Op, c: Id) {
    op.Finish? && op.verifier in s.inFlight && s.inFlight[op.verifier] == Verifier(c, false)
  }

  /** The step creates the code. */
  predicate Creates(s: Sys, op: Op, c: Id) {
    Next(s, op) != s && ((op.Create? && op.id == c) || (op.Register? && op.id == c))
  }

  /** Only a wrong try that finishes moves the counter. */
  lemma AttemptsAfter(s: Sys, op: Op, c: Id)
    requires c in Next(s, op).codes
    ensures Next(s, op).codes[c].attempts ==
            (if c in s.codes && !Creates(s, op, c) then s.codes[c].attempts else 0)
            + if CountsWrong(s, op, c) then 1 else 0
  {
  }

  lemma WrongAfter(s: Sys, op: Op, c: Id)
    ensures CountsWrong(s, op, c) ==> |Wrong(Next(s, op), c)| == |Wrong(s, c)| - 1
    ensures !CountsWrong(s, op, c) ==>
              |Wrong(Next(s, op), c)| == |Wrong(s, c)|
              || (c in s.codes && s.codes[c].attempts < MAX_ATTEMPTS && op.Begin?)
  {
    var t := Next(s, op);
    if CountsWrong(s, op, c) {
      assert Wrong(t, c) == Wrong(s, c) - {op.verifier};
    } else if !op.Begin? || t == s || op.code != c {
      assert Wrong(t, c) == Wrong(s, c);
    }
  }

  lemma AttemptsStep(s: Sys, op: Op, k: nat, c: Id)
    requires c in s.codes ==> s.codes[c].attempts + |Wrong(s, c)| <= MAX_ATTEMPTS - 1 + k
    requires |Next(s, op).inFlight| <= k
    ensures var t := Next(s, op); c in t.codes ==> t.codes[c].attempts + |Wrong(t, c)| <= MAX_ATTEMPTS - 1 + k
  {
    if c in Next(s, op).codes {
      AttemptsAfter(s, op, c);
      WrongAfter(s, op, c);
      WrongAtMost(Next(s, op), c);
    }
  }

  /** The largest number of verifications in flight at one time during a run. */
  function Peak(s: Sys, ops: seq<Op>): nat
    decreases |ops|
  {
    if ops == [] then |s.inFlight|
    else
      var before := Peak(s, ops[..|ops| - 1]);
      var last := |Run(s, ops).inFlight|;
      if last > before then last else before
  }

  /** With at most k verifications in flight, the counter of a code never exceeds MAX_ATTEMPTS - 1 + k. */
  lemma {:induction false} AttemptsBounded(now: int, ops: seq<Op>, k: nat, c: Id)
    requires Peak(Initial(now), ops) <= k
    ensures var s := Run(Initial(now), ops); c in s.codes ==>
              s.codes[c].attempts + |Wrong(s, c)| <= MAX_ATTEMPTS - 1 + k
  {
    if ops != [] {
      AttemptsBounded(now, ops[..|ops| - 1], k, c);
      AttemptsStep(Run(Initial(now), ops[..|ops| - 1]), ops[|ops| - 1], k, c);
    }
  }

  lemma {:induction false} RunConcat(s: Sys, a: seq<Op>, b: seq<Op>)
    ensures Run(s, a + b) == Run(Run(s, a), b)
    ensures Peak(s, a + b) <= Peak(s, a) || Peak(s, a + b) <= Peak(Run(s, a), b)
  {
    if b == [] {
      assert a + b == a;
    } else {
      var front := b[..|b| - 1];
      assert (a + b)[..|a + b| - 1] == a + front;
      RunConcat(s, a, front);
    }
  }

  /** Wrong tries made one after the other by verifier 0. */
  function Tries(n: nat): seq<Op> {
    if n == 0 then [] else Tries(n - 1) + [Begin(0, 0, false)] + [Finish(0)]
  }

  /** Verifiers 1 to k read the code before any of them writes. */
  function Begins(k: nat): seq<Op> {
    if k == 0 then [] else Begins(k - 1) + [Begin(k, 0, false)]
  }

  function Finishes(k: nat): seq<Op> {
    if k == 0 then [] else Finishes(k - 1) + [Finish(k)]
  }

  predicate Between(from: nat, v: int, to: nat) {
    from < v <= to
  }

  function Racing(from: nat, to: nat): map<Id, Verifier> {
    map v: int | 0 <= v <= to && Between(from, v, to) :: Verifier(0, false)
  }

  /** Code 0 is live and unexpired, with the given counter and racers. */
  ghost predicate Racers(s: Sys, attempts: nat, from: nat, to: nat) {
    && 0 in s.codes && Live(s.codes[0], s.now) && s.codes[0].attempts == attempts && s.inFlight == Racing(from, to)
  }

  lemma {:induction false} RacingSize(from: nat, to: nat)
    requires from <= to
    ensures |Racing(from, to)| == to - from
  {
    if from < to {
      RacingSize(from, to - 1);
      assert Racing(from, to) == Racing(from, to - 1)[(to as int) := Verifier(0, false)];
    } else {
      assert Racing(from, to) == map[];
    }
  }

  lemma RunSnoc(s: Sys, ops: seq<Op>, op: Op)
    ensures Run(s, ops + [op]) == Next(Run(s, ops), op)
    ensures Peak(s, ops + [op]) <= Peak(s, ops) || Peak(s, ops + [op]) == |Next(Run(s, ops), op).inFlight|
  {
  }

  lemma OneTries(s: Sys, attempts: nat)
    requires attempts < MAX_ATTEMPTS && Racers(s, attempts, 0, 0)
    ensures var t := Next(s, Begin(0, 0, false)); |t.inFlight| == 1 && Racers(Next(t, Finish(0)), attempts + 1, 0, 0)
  {
  }

  lemma OneBegins(s: Sys, attempts: nat, k: nat)
    requires k > 0 && attempts < MAX_ATTEMPTS && Racers(s, attempts, 0, k - 1)
    ensures Racers(Next(s, Begin(k, 0, false)), attempts, 0, k)
  {
  }

  lemma OneFinishes(s: Sys, attempts: nat, j: nat, k: nat)
    requires 0 < j <= k && Racers(s, attempts, j - 1, k)
    ensures Racers(Next(s, Finish(j)), attempts + 1, j, k)
  {
  }

  lemma RacersSize(s: Sys, attempts: nat, from: nat, to: nat)
    requires from <= to && Racers(s, attempts, from, to)
    ensures |s.inFlight| == to - from
  {
    RacingSize(from, to);
  }

  lemma {:induction false} AfterTries(s: Sys, n: nat)
    requires Racers(s, 0, 0, 0) && n < MAX_ATTEMPTS
    ensures Racers(Run(s, Tries(n)), n, 0, 0) && Peak(s, Tries(n)) <= 1
  {
    RacersSize(s, 0, 0, 0);
    if n > 0 {
      AfterTries(s, n - 1);
      var s1 := Run(s, Tries(n - 1));
      OneTries(s1, n - 1);
      RunSnoc(s, Tries(n - 1), Begin(0, 0, false));
      RunSnoc(s, Tries(n - 1) + [Begin(0, 0, false)], Finish(0));
      RacersSize(Run(s, Tries(n)), n, 0, 0);
    }
  }

  lemma {:induction false} AfterBegins(s: Sys, k: nat)
    requires Racers(s, MAX_ATTEMPTS - 1, 0, 0)
    ensures Racers(Run(s, Begins(k)), MAX_ATTEMPTS - 1, 0, k) && Peak(s, Begins(k)) <= k
  {
    if k == 0 {
      RacersSize(s, MAX_ATTEMPTS - 1, 0, 0);
    } else {
      AfterBegins(s, k - 1);
      var s1 := Run(s, Begins(k - 1));
      OneBegins(s1, MAX_ATTEMPTS - 1, k);
      RacersSize(Next(s1, Begin(k, 0, false)), MAX_ATTEMPTS - 1, 0, k);
      RunSnoc(s, Begins(k - 1), Begin(k, 0, false));
    }
  }

  lemma {:induction false} AfterFinishes(s: Sys, j: nat, k: nat)
    requires Racers(s, MAX_ATTEMPTS - 1, 0, k) && j <= k
    ensures Racers(Run(s, Finishes(j)), MAX_ATTEMPTS - 1 + j, j, k) && Peak(s, Finishes(j)) <= k
  {
    if j == 0 {
      RacersSize(s, MAX_ATTEMPTS - 1, 0, k);
    } else {
      AfterFinishes(s, j - 1, k);
      var s1 := Run(s, Finishes(j - 1));
      OneFinishes(s1, MAX_ATTEMPTS - 1 + (j - 1), j, k);
      RacersSize(Next(s1, Finish(j)), MAX_ATTEMPTS - 1 + j, j, k);
      RunSnoc(s, Finishes(j - 1), Finish(j));
    }
  }

  /** The bound is tight: for every k some run with at most k in flight reaches it. */
  lemma AttemptsBoundIsTight(k: nat) returns (ops: seq<Op>)
    requires k > 0
    ensures Peak(Initial(0), ops) <= k
    ensures var s := Run(Initial(0), ops); 0 in s.codes && s.codes[0].attempts == MAX_ATTEMPTS - 1 + k
  {
    var start := [Register("a", 0)];
    assert start[..0] == [] && RecentIds(map[], "a", -HOUR) == {};
    var s1 := Run(Initial(0), start);
    assert s1.inFlight == map[] == Racing(0, 0);
    AfterTries(s1, MAX_ATTEMPTS - 1);
    RunConcat(Initial(0), start, Tries(MAX_ATTEMPTS - 1));
    var s2 := Run(s1, Tries(MAX_ATTEMPTS - 1));
    AfterBegins(s2, k);
    RunConcat(Initial(0), start + Tries(MAX_ATTEMPTS - 1), Begins(k));
    AfterFinishes(Run(s2, Begins(k)), k, k);
    ops := start + Tries(MAX_ATTEMPTS - 1) + Begins(k) + Finishes(k);
    RunConcat(Initial(0), start + Tries(MAX_ATTEMPTS - 1) + Begins(k), Finishes(k));
  }
}
