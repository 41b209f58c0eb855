/** Registration as one atomic step: one live code per address, and the hourly limit. */
module OtpLimits {
  import opened Common
  import opened OtpSpec
  import opened OtpProtocol

  /** Registrations do not interleave: no code is created outside a registration step. */
  ghost predicate Atomic(ops: seq<Op>) {
    forall op | op in ops :: !op.Create?
  }

  // ----- One live code per address -----

  ghost predicate OneLive(s: Sys) {
    forall a, b | a in s.codes && b in s.codes && s.codes[a].email == s.codes[b].email
                  && Live(s.codes[a], s.now) && Live(s.codes[b], s.now) :: a == b
  }

  /** The step creates a code on its own, for an address that has a live one. */
  predicate Doubles(s: Sys, op: Op) {
    && op.Create? && op.request in s.pending && op.id !in s.made
    && LiveIds(s.codes, s.pending[op.request], s.now) != {}
  }

  lemma OneLiveKept(s: Sys, op: Op)
    requires OneLive(s) && !Doubles(s, op)
    ensures OneLive(Next(s, op))
  {
    if op.Create? && Next(s, op) != s {
      forall a | a in s.codes && s.codes[a].email == s.pending[op.request] ensures !Live(s.codes[a], s.now) {
        assert a !in LiveIds(s.codes, s.pending[op.request], s.now);
      }
    }
  }

  /** A step leaves an address with two live codes if and only if it is a separate creation for an address that has
      one. */
  lemma OneLiveStepIff(s: Sys, op: Op)
    requires Tracked(s) && OneLive(s)
    ensures OneLive(Next(s, op)) <==> !Doubles(s, op)
  {
    if Doubles(s, op) {
      var c := ElementOf(LiveIds(s.codes, s.pending[op.request], s.now));
      var t := Next(s, op);
      assert c != op.id && t.codes[c] == s.codes[c] && t.codes[op.id].email == t.codes[c].email;
      assert Live(t.codes[c], t.now) && Live(t.codes[op.id], t.now);
    } else {
      OneLiveKept(s, op);
    }
  }

  /** With atomic registrations every address has at most one live code at any time. */
  lemma {:induction false} OneLiveCode(now: int, ops: seq<Op>)
    requires Atomic(ops)
    ensures OneLive(Run(Initial(now), ops))
  {
    if ops != [] {
      OneLiveCode(now, ops[..|ops| - 1]);
      OneLiveKept(Run(Initial(now), ops[..|ops| - 1]), ops[|ops| - 1]);
    }
  }

  /** Two registrations that interleave leave two live codes. */
  lemma InterleavedRegistrations()
    ensures !OneLive(Run(Initial(0), [Count(8, "a"), Count(9, "a")]
                                     + [Invalidate(8), Invalidate(9), Create(8, 1), Create(9, 2)]))
  {
    var counted := Sys(0, map[], map[], map[8 := "a", 9 := "a"], [], map[]);
    assert RecentIds(map[], "a", -HOUR) == {};
    RunTwo(Initial(0), Count(8, "a"), Count(9, "a"));
    assert Run(Initial(0), [Count(8, "a"), Count(9, "a")]) == counted;
    TwoCreated(counted);
    RunConcat(Initial(0), [Count(8, "a"), Count(9, "a")], [Invalidate(8), Invalidate(9), Create(8, 1), Create(9, 2)]);
  }

  lemma TwoCreated(counted: Sys)
    requires counted == Sys(0, map[], map[], map[8 := "a", 9 := "a"], [], map[])
    ensures !OneLive(Run(counted, [Invalidate(8), Invalidate(9), Create(8, 1), Create(9, 2)]))
  {
    RunFour(counted, Invalidate(8), Invalidate(9), Create(8, 1), Create(9, 2));
    assert Invalidated(map[], "a", 0) == map[];
    var s := Run(counted, [Invalidate(8), Invalidate(9), Create(8, 1), Create(9, 2)]);
    assert 1 in s.codes && 2 in s.codes && s.now == 0;
    assert s.codes[1] == NewCode("a", 0) == s.codes[2];
  }

  /** So do two that follow one another when the second one's invalidation has failed. */
  lemma SkippedInvalidation()
    ensures !OneLive(Run(Initial(0), [Count(8, "a"), Create(8, 1), Count(9, "a"), Create(9, 2)]))
  {
    RunFour(Initial(0), Count(8, "a"), Create(8, 1), Count(9, "a"), Create(9, 2));
    var s := Run(Initial(0), [Count(8, "a"), Create(8, 1), Count(9, "a"), Create(9, 2)]);
    assert RecentIds(map[], "a", -HOUR) == {};
    assert RecentIds(map[1 := NewCode("a", 0)], "a", -HOUR) == {1};
    assert 1 in s.codes && 2 in s.codes && s.now == 0;
    assert s.codes[1] == NewCode("a", 0) == s.codes[2];
  }

  // ----- At most five codes per hour -----

  /** The codes created for an address in the hour that ends at `until`. */
  function Within(codes: Codes, email: string, until: int): set<Id> {
    set id | id in codes && codes[id].email == email && until - HOUR < codes[id].createdAt <= until
  }

  ghost predicate Limited(codes: Codes) {
    forall email, until :: |Within(codes, email, until)| <= MAX_CODES_PER_HOUR
  }

  /** Every code created in the past hour is still in the table. */
  ghost predicate Complete(s: Sys) {
    forall c | c in s.made && s.made[c].createdAt > s.now - HOUR :: c in s.codes
  }

  /** A clean-up at this moment would drop only codes that are at least an hour old. */
  ghost predicate DropsOnlyOld(s: Sys) {
    forall c | c in s.codes && IsExpired(s.codes[c], s.now) :: s.codes[c].createdAt <= s.now - HOUR
  }

  lemma WithinOfNew(codes: Codes, id: Id, otp: Code, email: string, until: int)
    requires id !in codes
    ensures Within(codes[id := otp], email, until)
         == Within(codes, email, until)
            + if otp.email == email && until - HOUR < otp.createdAt <= until then {id} else {}
  {
  }

  lemma SameWithin(codes: Codes, codes': Codes, email: string, until: int)
    requires forall c | c in codes' ::
               c in codes && codes[c].email == codes'[c].email && codes[c].createdAt == codes'[c].createdAt
    ensures |Within(codes', email, until)| <= |Within(codes, email, until)|
  {
    forall c | c in Within(codes', email, until) ensures c in Within(codes, email, until) {
    }
    SubsetSize(Within(codes', email, until), Within(codes, email, until));
  }

  /** A new code keeps the limit when the codes of the past hour have been counted. */
  lemma NewCodeKeepsLimit(codes: Codes, counted: Codes, email: string, now: int, id: Id)
    requires Limited(codes) && id !in codes && !RateLimited(counted, email, now)
    requires forall c | c in codes && codes[c].email == email && codes[c].createdAt > now - HOUR ::
              c in RecentIds(counted, email, now - HOUR)
    ensures Limited(codes[id := NewCode(email, now)])
  {
    var codes' := codes[id := NewCode(email, now)];
    forall e, until ensures |Within(codes', e, until)| <= MAX_CODES_PER_HOUR {
      WithinOfNew(codes, id, NewCode(email, now), e, until);
      if e == email && until - HOUR < now <= until {
        forall c | c in Within(codes, email, until) ensures c in RecentIds(counted, email, now - HOUR) {
        }
        SubsetSize(Within(codes, email, until), RecentIds(counted, email, now - HOUR));
      }
    }
  }

  /** The table never holds more than five codes of one address created within one hour, clean-ups included. */
  lemma StoredLimitStep(s: Sys, op: Op)
    requires Tracked(s) && Limited(s.codes) && !op.Create?
    ensures Limited(Next(s, op).codes)
  {
    var t := Next(s, op);
    if op.Register? && t != s {
      var voided := Invalidated(s.codes, op.email, s.now);
      forall e, until ensures |Within(voided, e, until)| <= MAX_CODES_PER_HOUR {
        SameWithin(s.codes, voided, e, until);
      }
      NewCodeKeepsLimit(voided, s.codes, op.email, s.now, op.id);
    } else {
      forall e, until ensures |Within(t.codes, e, until)| <= MAX_CODES_PER_HOUR {
        SameWithin(s.codes, t.codes, e, until);
      }
    }
  }

  lemma {:induction false} StoredLimit(now: int, ops: seq<Op>)
    requires Atomic(ops)
    ensures Limited(Run(Initial(now), ops).codes)
  {
    if ops == [] {
      assert forall e, until :: Within(map[], e, until) == {};
    } else {
      StoredLimit(now, ops[..|ops| - 1]);
      RunIsTracked(now, ops[..|ops| - 1]);
      StoredLimitStep(Run(Initial(now), ops[..|ops| - 1]), ops[|ops| - 1]);
    }
  }

  // ----- The codes ever created -----

  /** Nothing but a clean-up that drops a young code makes the count miss a code. */
  lemma CompleteStep(s: Sys, op: Op)
    requires Tracked(s) && Complete(s)
    ensures Complete(Next(s, op)) <==> (op.Cleanup? ==> DropsOnlyOld(s))
  {
  }

  lemma MadeLimitStep(s: Sys, op: Op)
    requires Tracked(s) && Complete(s) && Limited(s.made) && !op.Create?
    ensures Limited(Next(s, op).made)
  {
    if op.Register? && Next(s, op) != s {
      NewCodeKeepsLimit(s.made, s.codes, op.email, s.now, op.id);
    }
  }

  /** Every clean-up of the run drops only codes that are at least an hour old. */
  ghost predicate CleansOnlyOld(s: Sys, ops: seq<Op>)
    decreases |ops|
  {
    ops == [] ||
    (CleansOnlyOld(s, ops[..|ops| - 1])
     && (ops[|ops| - 1].Cleanup? ==> DropsOnlyOld(Run(s, ops[..|ops| - 1]))))
  }

  lemma {:induction false} LimitsKept(s: Sys, ops: seq<Op>)
    requires Atomic(ops) && CleansOnlyOld(s, ops) && Tracked(s) && Complete(s) && Limited(s.made)
    ensures var t := Run(s, ops); Tracked(t) && Complete(t) && Limited(t.made)
  {
    if ops != [] {
      LimitsKept(s, ops[..|ops| - 1]);
      var t := Run(s, ops[..|ops| - 1]);
      TrackedStep(t, ops[|ops| - 1]);
      CompleteStep(t, ops[|ops| - 1]);
      MadeLimitStep(t, ops[|ops| - 1]);
    }
  }

  /** At most five codes are created per address and hour, provided no clean-up drops a code younger than an hour. */
  lemma HourlyLimit(now: int, ops: seq<Op>)
    requires Atomic(ops) && CleansOnlyOld(Initial(now), ops)
    ensures Limited(Run(Initial(now), ops).made)
  {
    assert forall e, until :: Within(map[], e, until) == {};
    LimitsKept(Initial(now), ops);
  }

  /** In particular in every run without clean-ups. */
  lemma {:induction false} WithoutCleanup(s: Sys, ops: seq<Op>)
    requires forall op | op in ops :: !op.Cleanup?
    ensures CleansOnlyOld(s, ops)
  {
    if ops != [] {
      WithoutCleanup(s, ops[..|ops| - 1]);
      assert ops[|ops| - 1] in ops;
    }
  }

  // ----- The proviso is necessary -----

  ghost predicate OnlyRegisters(ops: seq<Op>) {
    forall op | op in ops :: op.Register?
  }

  lemma RecentAfterRegister(codes: Codes, email: string, now: int, id: Id)
    requires id !in codes && !RateLimited(codes, email, now)
    ensures RecentIds(Registered(codes, email, now, id), email, now - HOUR)
         == RecentIds(codes, email, now - HOUR) + {id}
  {
    var after := Registered(codes, email, now, id);
    var recent, grown := RecentIds(after, email, now - HOUR), RecentIds(codes, email, now - HOUR) + {id};
    forall c ensures c in recent <==> c in grown {
      assert c in after <==> c in codes || c == id;
    }
  }

  lemma OneRequest(s: Sys, email: string, id: Id)
    requires Tracked(s) && !RateLimited(s.codes, email, s.now) && id !in s.made
    ensures var t := Next(s, Register(email, id));
            t.now == s.now && |RecentIds(t.codes, email, s.now - HOUR)| == |RecentIds(s.codes, email, s.now - HOUR)| + 1
  {
    hide Registered, RateLimited, RecentIds;
    RecentAfterRegister(s.codes, email, s.now, id);
    NotRecent(s.codes, email, s.now - HOUR, id);
  }

  lemma NotRecent(codes: Codes, email: string, since: int, id: Id)
    requires id !in codes
    ensures id !in RecentIds(codes, email, since)
  {
  }

  /** Requests for one address until the limit refuses the next one. */
  lemma {:induction false} FillUp(s: Sys, email: string) returns (ops: seq<Op>)
    requires Tracked(s)
    ensures OnlyRegisters(ops) && RateLimited(Run(s, ops).codes, email, s.now)
    decreases MAX_CODES_PER_HOUR - |RecentIds(s.codes, email, s.now - HOUR)|
  {
    if RateLimited(s.codes, email, s.now) {
      ops := [];
    } else {
      var id := AboveAll(s.made.Keys);
      var op := Register(email, id);
      assert id !in s.made;
      var t := Next(s, op);
      OneRequest(s, email, id);
      TrackedStep(s, op);
      var rest := FillUp(t, email);
      ops := [op] + rest;
      assert [op][..0] == [] && Run(s, [op]) == t;
      RunConcat(s, [op], rest);
    }
  }

  /** Registrations keep the clock and the history, and do not bring a dropped code back. */
  lemma {:induction false} RegistersKeep(s: Sys, ops: seq<Op>, c: Id)
    requires Tracked(s) && OnlyRegisters(ops) && c in s.made
    ensures var t := Run(s, ops);
            Tracked(t) && t.now == s.now && c in t.made && t.made[c] == s.made[c] && (c !in s.codes ==> c !in t.codes)
  {
    if ops != [] {
      RegistersKeep(s, ops[..|ops| - 1], c);
      assert ops[|ops| - 1] in ops;
      TrackedStep(Run(s, ops[..|ops| - 1]), ops[|ops| - 1]);
    }
  }

  ghost predicate CanBreakLimit(s: Sys) {
    exists ops :: OnlyRegisters(ops) && !Limited(Run(s, ops).made)
  }

  lemma MissingCodeBreaksLimit(s: Sys, c: Id)
    requires Tracked(s) && c in s.made && s.made[c].createdAt > s.now - HOUR && c !in s.codes
    ensures CanBreakLimit(s)
  {
    var email := s.made[c].email;
    var ops := FillUp(s, email);
    RegistersKeep(s, ops, c);
    var t := Run(s, ops);
    var recent := RecentIds(t.codes, email, s.now - HOUR);
    forall d | d in recent + {c} ensures d in Within(t.made, email, s.now) {
    }
    SubsetSize(recent + {c}, Within(t.made, email, s.now));
    assert !Limited(t.made);
  }

  lemma CompleteCannotBreak(s: Sys)
    requires Tracked(s) && Complete(s) && Limited(s.made)
    ensures !CanBreakLimit(s)
  {
    forall ops | OnlyRegisters(ops) ensures Limited(Run(s, ops).made) {
      WithoutCleanup(s, ops);
      LimitsKept(s, ops);
    }
  }

  /** A clean-up opens the way past the hourly limit exactly when it drops a code younger than an hour. */
  lemma CleanupBreaksLimitIff(s: Sys)
    requires Tracked(s) && Complete(s) && Limited(s.made)
    ensures CanBreakLimit(Next(s, Cleanup)) <==> !DropsOnlyOld(s)
  {
    var t := Next(s, Cleanup);
    TrackedStep(s, Cleanup);
    CompleteStep(s, Cleanup);
    if DropsOnlyOld(s) {
      CompleteCannotBreak(t);
    } else {
      var c :| c in s.codes && IsExpired(s.codes[c], s.now) && s.codes[c].createdAt > s.now - HOUR;
      MissingCodeBreaksLimit(t, c);
    }
  }

  /** Such a clean-up exists: codes expire after ten minutes, and one hour is what the limit counts. */
  lemma YoungCodeIsDropped()
    ensures var s := Run(Initial(0), [Register("a", 1), Tick(CODE_EXPIRY + 1)]);
            Tracked(s) && Complete(s) && Limited(s.made) && !DropsOnlyOld(s)
  {
    var ops := [Register("a", 1), Tick(CODE_EXPIRY + 1)];
    WithoutCleanup(Initial(0), ops);
    assert forall e, until :: Within(map[], e, until) == {};
    LimitsKept(Initial(0), ops);
    RunTwo(Initial(0), Register("a", 1), Tick(CODE_EXPIRY + 1));
    var s := Run(Initial(0), ops);
    assert RecentIds(map[], "a", -HOUR) == {};
    assert 1 in s.codes && IsExpired(s.codes[1], s.now) && s.codes[1].createdAt > s.now - HOUR;
  }
}
