/** How many codes an address can get whatever the clean-ups drop: five per lifetime of a code, thirty per hour. */
module OtpBursts {
  import opened Common
  import opened OtpSpec
  import opened OtpProtocol
  import opened OtpLimits

  // ----- Five codes per lifetime -----

  /** The codes created for an address from `since` to `until`. */
  function Made(codes: Codes, email: string, since: int, until: int): set<Id> {
    set id | id in codes && codes[id].email == email && since <= codes[id].createdAt <= until
  }

  /** Those created within the lifetime of a code that ends at `until`. */
  function Burst(codes: Codes, email: string, until: int): set<Id> {
    Made(codes, email, until - CODE_EXPIRY, until)
  }

  ghost predicate FivePerLifetime(codes: Codes) {
    forall email, until :: |Burst(codes, email, until)| <= MAX_CODES_PER_HOUR
  }

  /** No clean-up drops a code before it has expired. */
  ghost predicate KeepsYoung(s: Sys) {
    forall c | c in s.made && s.made[c].createdAt >= s.now - CODE_EXPIRY :: c in s.codes
  }

  lemma KeepsYoungStep(s: Sys, op: Op)
    requires Tracked(s) && KeepsYoung(s)
    ensures KeepsYoung(Next(s, op))
  {
  }

  lemma RegisteredOne(s: Sys, email: string, id: Id)
    requires Tracked(s) && KeepsYoung(s) && FivePerLifetime(s.made)
    requires id !in s.made && !RateLimited(s.codes, email, s.now)
    ensures FivePerLifetime(s.made[id := NewCode(email, s.now)])
  {
    var made' := s.made[id := NewCode(email, s.now)];
    forall e, until ensures |Burst(made', e, until)| <= MAX_CODES_PER_HOUR {
      BurstOfNew(s.made, id, NewCode(email, s.now), e, until);
      if e == email && until - CODE_EXPIRY <= s.now <= until {
        var recent := RecentIds(s.codes, email, s.now - HOUR);
        forall c | c in Burst(s.made, e, until) ensures c in recent {
        }
        SubsetSize(Burst(s.made, e, until), recent);
      }
    }
  }

  lemma BurstOfNew(codes: Codes, id: Id, otp: Code, email: string, until: int)
    requires id !in codes
    ensures Burst(codes[id := otp], email, until)
         == Burst(codes, email, until)
            + if otp.email == email && until - CODE_EXPIRY <= otp.createdAt <= until then {id} else {}
  {
  }

  lemma FiveStep(s: Sys, op: Op)
    requires Tracked(s) && KeepsYoung(s) && FivePerLifetime(s.made) && !op.Create?
    ensures FivePerLifetime(Next(s, op).made)
  {
    if op.Register? && Next(s, op) != s {
      RegisteredOne(s, op.email, op.id);
    }
  }

  /** With registrations that do not overlap, at most five codes of an address are created within the lifetime of a
      code, whatever the clean-ups. */
  lemma {:induction false} LifetimeLimit(now: int, ops: seq<Op>)
    requires Atomic(ops)
    ensures var s := Run(Initial(now), ops); KeepsYoung(s) && FivePerLifetime(s.made)
  {
    if ops == [] {
      assert forall e, until :: Burst(map[], e, until) == {};
    } else {
      var front, last := ops[..|ops| - 1], ops[|ops| - 1];
      LifetimeLimit(now, front);
      RunIsTracked(now, front);
      KeepsYoungStep(Run(Initial(now), front), last);
      FiveStep(Run(Initial(now), front), last);
    }
  }

  // ----- Thirty codes per hour -----

  lemma MadeInTwo(codes: Codes, email: string, since: int, cut: int, until: int)
    ensures |Made(codes, email, since, until)| <=
            |Made(codes, email, since, cut)| + |Made(codes, email, cut + 1, until)|
  {
    var early, late := Made(codes, email, since, cut), Made(codes, email, cut + 1, until);
    SubsetSize(Made(codes, email, since, until), early + late);
  }

  /** A window that is no longer than n lifetimes. */
  lemma {:induction false} LifetimesCover(codes: Codes, email: string, since: int, until: int, n: nat)
    requires FivePerLifetime(codes) && until - since < n * CODE_EXPIRY
    ensures |Made(codes, email, since, until)| <= n * MAX_CODES_PER_HOUR
    decreases n
  {
    if until < since {
      assert Made(codes, email, since, until) == {};
    } else {
      var cut := until - CODE_EXPIRY;
      assert n > 0 && (n - 1) * CODE_EXPIRY == n * CODE_EXPIRY - CODE_EXPIRY;
      LifetimesCover(codes, email, since, cut, n - 1);
      MadeInTwo(codes, email, since, cut, until);
      SubsetSize(Made(codes, email, cut + 1, until), Burst(codes, email, until));
    }
  }

  /** So an hour, which six lifetimes cover, sees at most thirty. */
  lemma ThirtyPerHour(now: int, ops: seq<Op>, email: string, until: int)
    requires Atomic(ops)
    ensures |Within(Run(Initial(now), ops).made, email, until)| <= HOUR / CODE_EXPIRY * MAX_CODES_PER_HOUR
  {
    var made := Run(Initial(now), ops).made;
    LifetimeLimit(now, ops);
    LifetimesCover(made, email, until - HOUR + 1, until, HOUR / CODE_EXPIRY);
    assert Within(made, email, until) == Made(made, email, until - HOUR + 1, until);
  }

  // ----- Thirty are reached -----

  /** Nothing is stored, and at least n codes have been created for the address since time 0. */
  ghost predicate Emptied(s: Sys, email: string, n: nat) {
    Tracked(s) && s.codes == map[] && |Made(s.made, email, 0, s.now)| >= n
  }

  /** Registrations from an empty table fill it up with five more codes. */
  lemma Filled(s: Sys, email: string, n: nat) returns (ops: seq<Op>)
    requires Emptied(s, email, n) && s.now >= 0
    ensures OnlyRegisters(ops)
    ensures var t := Run(s, ops);
            Tracked(t) && t.now == s.now && |Made(t.made, email, 0, s.now)| >= n + MAX_CODES_PER_HOUR
  {
    ops := FillUp(s, email);
    var t := Run(s, ops);
    var recent, before := RecentIds(t.codes, email, s.now - HOUR), Made(s.made, email, 0, s.now);
    RegistersTrack(s, ops);
    forall c | c in s.made ensures c in t.made && t.made[c] == s.made[c] && c !in t.codes {
      RegistersKeep(s, ops, c);
    }
    forall c | c in t.made && c !in s.made ensures t.made[c].createdAt == s.now {
      RegistersAddNow(s, ops, c);
    }
    forall c | c in recent ensures c in Made(t.made, email, 0, s.now) && c !in before {
    }
    assert recent !! before;
    SubsetSize(before + recent, Made(t.made, email, 0, s.now));
  }

  lemma {:induction false} RegistersTrack(s: Sys, ops: seq<Op>)
    requires Tracked(s) && OnlyRegisters(ops)
    ensures Tracked(Run(s, ops)) && Run(s, ops).now == s.now
  {
    if ops != [] {
      RegistersTrack(s, ops[..|ops| - 1]);
      assert ops[|ops| - 1] in ops;
      TrackedStep(Run(s, ops[..|ops| - 1]), ops[|ops| - 1]);
    }
  }

  lemma {:induction false} RegistersAddNow(s: Sys, ops: seq<Op>, c: Id)
    requires Tracked(s) && OnlyRegisters(ops) && c in Run(s, ops).made && c !in s.made
    ensures Run(s, ops).made[c].createdAt == s.now
  {
    if ops != [] {
      var front := ops[..|ops| - 1];
      assert ops[|ops| - 1] in ops;
      RegistersTrack(s, front);
      if c in Run(s, front).made {
        RegistersAddNow(s, front, c);
      }
    }
  }

  /** Once all codes have expired, a clean-up empties the table. */
  lemma Expired(s: Sys, email: string, n: nat)
    requires Tracked(s) && s.now >= 0 && |Made(s.made, email, 0, s.now)| >= n
    ensures var t := Next(Next(s, Tick(s.now + CODE_EXPIRY + 1)), Cleanup);
            Emptied(t, email, n) && t.now == s.now + CODE_EXPIRY + 1
  {
    var later := Next(s, Tick(s.now + CODE_EXPIRY + 1));
    var t := Next(later, Cleanup);
    TrackedStep(s, Tick(s.now + CODE_EXPIRY + 1));
    TrackedStep(later, Cleanup);
    forall c | c in s.codes ensures IsExpired(s.codes[c], later.now) {
    }
    assert t.codes == map[];
    SubsetSize(Made(s.made, email, 0, s.now), Made(t.made, email, 0, t.now));
  }

  /** A round: filling up, waiting for all codes to expire, and a clean-up. */
  lemma OneRound(s: Sys, email: string, n: nat) returns (ops: seq<Op>)
    requires Emptied(s, email, n) && s.now >= 0
    ensures Atomic(ops)
    ensures var t := Run(s, ops); Emptied(t, email, n + MAX_CODES_PER_HOUR) && t.now == s.now + CODE_EXPIRY + 1
  {
    hide Run, Emptied, Next, Tracked;
    var fill := Filled(s, email, n);
    var t := Run(s, fill);
    var pause := [Tick(t.now + CODE_EXPIRY + 1), Cleanup];
    Expired(t, email, n + MAX_CODES_PER_HOUR);
    RunTwo(t, pause[0], pause[1]);
    RunConcat(s, fill, pause);
    ops := fill + pause;
  }

  lemma AtomicConcat(a: seq<Op>, b: seq<Op>)
    requires Atomic(a) && Atomic(b)
    ensures Atomic(a + b)
  {
  }

  function Times(n: nat, k: nat): nat {
    if n == 0 then 0 else Times(n - 1, k) + k
  }

  lemma {:induction false} Rounds(n: nat, email: string) returns (ops: seq<Op>)
    ensures Atomic(ops)
    ensures var s := Run(Initial(0), ops);
            Emptied(s, email, Times(n, MAX_CODES_PER_HOUR)) && s.now == Times(n, CODE_EXPIRY + 1)
  {
    if n == 0 {
      ops := [];
    } else {
      hide Run, Emptied, Atomic;
      var before := Rounds(n - 1, email);
      var round := OneRound(Run(Initial(0), before), email, Times(n - 1, MAX_CODES_PER_HOUR));
      RunConcat(Initial(0), before, round);
      AtomicConcat(before, round);
      ops := before + round;
    }
  }

  lemma {:induction false} TimesIsProduct(n: nat, k: nat)
    ensures Times(n, k) == n * k
  {
    if n > 0 {
      TimesIsProduct(n - 1, k);
      assert n * k == (n - 1) * k + k;
    }
  }

  /** A run with clean-ups creates thirty codes for one address within an hour. */
  lemma ThirtyAreReached(email: string) returns (ops: seq<Op>, until: int)
    ensures Atomic(ops)
    ensures |Within(Run(Initial(0), ops).made, email, until)| == HOUR / CODE_EXPIRY * MAX_CODES_PER_HOUR
  {
    hide Run, Emptied, Tracked;
    var before := Rounds(5, email);
    var s := Run(Initial(0), before);
    TimesIsProduct(5, MAX_CODES_PER_HOUR);
    TimesIsProduct(5, CODE_EXPIRY + 1);
    var fill := Filled(s, email, 5 * MAX_CODES_PER_HOUR);
    ops, until := before + fill, s.now;
    RunConcat(Initial(0), before, fill);
    var made := Run(Initial(0), ops).made;
    ThirtyPerHour(0, ops, email, until);
    SubsetSize(Made(made, email, 0, until), Within(made, email, until));
  }
}
