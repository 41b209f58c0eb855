/** Registrations that overlap: how far the hourly limit can be exceeded. */
module OtpRaces {
  import opened Common
  import opened OtpSpec
  import opened OtpProtocol
  import opened OtpLimits

  /** The registrations of an address between their count and their create. */
  function Waiting(s: Sys, email: string): set<Id> {
    set r | r in s.pending && s.pending[r] == email
  }

  /** The step creates a code. */
  predicate Adds(s: Sys, op: Op) {
    || (op.Create? && op.request in s.pending && op.id !in s.made)
    || (op.Register? && op.id !in s.made && !RateLimited(s.codes, op.email, s.now))
  }

  /** The address of the code that the step creates. */
  function AddressOf(s: Sys, op: Op): string
    requires Adds(s, op)
  {
    if op.Create? then s.pending[op.request] else op.email
  }

  /** The registrations under way during a step: those left pending, and an atomic one that is accepted. */
  function Load(s: Sys, op: Op): nat {
    |Next(s, op).pending| + if op.Register? && Adds(s, op) then 1 else 0
  }

  /** The largest number of registrations under way at one time during a run. */
  function PeakLoad(s: Sys, ops: seq<Op>): nat
    decreases |ops|
  {
    if ops == [] then |s.pending|
    else
      var before := PeakLoad(s, ops[..|ops| - 1]);
      var last := Load(Run(s, ops[..|ops| - 1]), ops[|ops| - 1]);
      if last > before then last else before
  }

  lemma WaitingAtMost(s: Sys, email: string)
    ensures |Waiting(s, email)| <= |s.pending|
  {
    SubsetSize(Waiting(s, email), s.pending.Keys);
  }

  /** When the table is complete the count sees every code of the past hour. */
  lemma AllCounted(s: Sys, email: string)
    requires Tracked(s) && Complete(s)
    ensures |RecentIds(s.made, email, s.now - HOUR)| <= |RecentIds(s.codes, email, s.now - HOUR)|
  {
    var made, counted := RecentIds(s.made, email, s.now - HOUR), RecentIds(s.codes, email, s.now - HOUR);
    forall c | c in made ensures c in counted {
    }
    SubsetSize(made, counted);
  }

  lemma RecentOfNew(codes: Codes, id: Id, otp: Code, email: string, since: int)
    requires id !in codes
    ensures RecentIds(codes[id := otp], email, since)
         == RecentIds(codes, email, since) + if otp.email == email && otp.createdAt > since then {id} else {}
  {
  }

  lemma RecentShrinks(codes: Codes, email: string, since: int, later: int)
    requires since <= later
    ensures |RecentIds(codes, email, later)| <= |RecentIds(codes, email, since)|
  {
    SubsetSize(RecentIds(codes, email, later), RecentIds(codes, email, since));
  }

  lemma MadeAfter(s: Sys, op: Op)
    ensures var t := Next(s, op);
            if Adds(s, op) then t.now == s.now && t.made == s.made[op.id := NewCode(AddressOf(s, op), s.now)]
            else s.now <= t.now && t.made == s.made
  {
  }

  lemma WaitingAfter(s: Sys, op: Op, email: string)
    ensures var t := Next(s, op);
            if op.Create? && Adds(s, op) && AddressOf(s, op) == email
            then op.request in Waiting(s, email) && Waiting(t, email) == Waiting(s, email) - {op.request}
            else Waiting(t, email) == Waiting(s, email) ||
                 (op.Count? && op.email == email && !RateLimited(s.codes, email, s.now))
  {
    var t := Next(s, op);
    if op.Create? && Adds(s, op) {
      forall r ensures r in Waiting(t, email) <==> r in Waiting(s, email) && r != op.request {
      }
    }
  }

  lemma RecentAfter(s: Sys, op: Op, email: string)
    ensures var t := Next(s, op);
            |RecentIds(t.made, email, t.now - HOUR)| <=
              |RecentIds(s.made, email, s.now - HOUR)| + if Adds(s, op) && AddressOf(s, op) == email then 1 else 0
  {
    MadeAfter(s, op);
    if Adds(s, op) {
      RecentOfNew(s.made, op.id, NewCode(AddressOf(s, op), s.now), email, s.now - HOUR);
    } else {
      RecentShrinks(s.made, email, s.now - HOUR, Next(s, op).now - HOUR);
    }
  }

  lemma RoomStep(s: Sys, op: Op, k: nat, email: string)
    requires Tracked(s) && Complete(s) && Load(s, op) <= k
    requires |RecentIds(s.made, email, s.now - HOUR)| + |Waiting(s, email)| <= MAX_CODES_PER_HOUR - 1 + k
    ensures var t := Next(s, op);
            |RecentIds(t.made, email, t.now - HOUR)| + |Waiting(t, email)| <= MAX_CODES_PER_HOUR - 1 + k
  {
    hide Next, RecentIds, Waiting, Tracked, Complete;
    RecentAfter(s, op, email);
    WaitingAfter(s, op, email);
    WaitingAtMost(Next(s, op), email);
    AllCounted(s, email);
  }

  lemma WithinIsRecent(codes: Codes, email: string, now: int, until: int)
    requires until >= now
    ensures |Within(codes, email, until)| <= |RecentIds(codes, email, now - HOUR)|
  {
    SubsetSize(Within(codes, email, until), RecentIds(codes, email, now - HOUR));
  }

  lemma WithinAfter(s: Sys, op: Op, email: string, until: int)
    ensures var n := |Within(Next(s, op).made, email, until)|;
            n <= |Within(s.made, email, until)| ||
            (Adds(s, op) && AddressOf(s, op) == email && n <= |RecentIds(s.made, email, s.now - HOUR)| + 1)
  {
    MadeAfter(s, op);
    if Adds(s, op) {
      WithinOfNew(s.made, op.id, NewCode(AddressOf(s, op), s.now), email, until);
      if until >= s.now {
        WithinIsRecent(s.made, email, s.now, until);
      }
    }
  }

  lemma WithinStep(s: Sys, op: Op, k: nat, email: string, until: int)
    requires Tracked(s) && Complete(s) && Load(s, op) <= k
    requires |Within(s.made, email, until)| <= MAX_CODES_PER_HOUR - 1 + k
    requires |RecentIds(s.made, email, s.now - HOUR)| + |Waiting(s, email)| <= MAX_CODES_PER_HOUR - 1 + k
    ensures |Within(Next(s, op).made, email, until)| <= MAX_CODES_PER_HOUR - 1 + k
  {
    hide Next, RecentIds, Within, Waiting, Tracked, Complete;
    WithinAfter(s, op, email, until);
    AllCounted(s, email);
    WaitingAfter(s, op, email);
  }

  /** What a run with at most k registrations under way keeps, for one address and hour. */
  ghost predicate Roomy(s: Sys, k: nat, email: string, until: int) {
    && Tracked(s) && Complete(s)
    && |Within(s.made, email, until)| <= MAX_CODES_PER_HOUR - 1 + k
    && |RecentIds(s.made, email, s.now - HOUR)| + |Waiting(s, email)| <= MAX_CODES_PER_HOUR - 1 + k
  }

  lemma RoomyStart(now: int, k: nat, email: string, until: int)
    ensures Roomy(Initial(now), k, email, until)
  {
    var s := Initial(now);
    assert Within(s.made, email, until) == {} && RecentIds(s.made, email, now - HOUR) == {} && Waiting(s, email) == {};
  }

  lemma RoomyStep(s: Sys, op: Op, k: nat, email: string, until: int)
    requires Roomy(s, k, email, until) && Load(s, op) <= k && (op.Cleanup? ==> DropsOnlyOld(s))
    ensures Roomy(Next(s, op), k, email, until)
  {
    hide Next, Tracked, Complete, Load, Within, RecentIds, Waiting, DropsOnlyOld;
    RoomStep(s, op, k, email);
    WithinStep(s, op, k, email, until);
    TrackedStep(s, op);
    CompleteStep(s, op);
  }

  lemma {:induction false} RunKeepsRoom(now: int, ops: seq<Op>, k: nat, email: string, until: int)
    requires CleansOnlyOld(Initial(now), ops) && PeakLoad(Initial(now), ops) <= k
    ensures Roomy(Run(Initial(now), ops), k, email, until)
  {
    if ops == [] {
      RoomyStart(now, k, email, until);
    } else {
      hide Roomy, Next, Load, DropsOnlyOld, Initial;
      var front, last := ops[..|ops| - 1], ops[|ops| - 1];
      RunKeepsRoom(now, front, k, email, until);
      RoomyStep(Run(Initial(now), front), last, k, email, until);
    }
  }

  /** With at most k registrations under way at one time, at most MAX_CODES_PER_HOUR - 1 + k codes are created per
      address and hour. */
  lemma OverlappingLimit(now: int, ops: seq<Op>, k: nat, email: string, until: int)
    requires CleansOnlyOld(Initial(now), ops) && PeakLoad(Initial(now), ops) <= k
    ensures |Within(Run(Initial(now), ops).made, email, until)| <= MAX_CODES_PER_HOUR - 1 + k
  {
    RunKeepsRoom(now, ops, k, email, until);
  }

  // ----- The bound is tight -----

  /** Atomic requests for address "a". */
  function Requests(n: nat): seq<Op> {
    if n == 0 then [] else Requests(n - 1) + [Register("a", n)]
  }

  /** Requests 1 to k are counted before any of them creates its code. */
  function Counts(k: nat): seq<Op> {
    if k == 0 then [] else Counts(k - 1) + [Count(k, "a")]
  }

  function Creates(k: nat): seq<Op> {
    if k == 0 then [] else Creates(k - 1) + [Create(k, -(k as int))]
  }

  function Queue(first: nat, last: nat): map<Id, string> {
    map r: int | 0 <= r <= last && Between(first, r, last) :: "a"
  }

  /** So many codes were created at the current moment, with identifiers in the given range, and requests wait. */
  ghost predicate Fixture(s: Sys, made: nat, low: nat, high: nat, first: nat, last: nat) {
    && Tracked(s) && s.now == 0 && s.pending == Queue(first, last)
    && |Within(s.made, "a", 0)| == made && |RecentIds(s.codes, "a", -HOUR)| == made
    && forall c | c in s.made :: -(low as int) <= c <= high
  }

  lemma {:induction false} QueueSize(first: nat, last: nat)
    requires first <= last
    ensures |Queue(first, last)| == last - first
  {
    if first < last {
      QueueSize(first, last - 1);
      assert Queue(first, last) == Queue(first, last - 1)[(last as int) := "a"];
    } else {
      assert Queue(first, last) == map[];
    }
  }

  /** A code created now counts among those of the past hour, in the table and in the history. */
  lemma NewCounts(s: Sys, op: Op)
    requires Tracked(s) && s.now == 0 && Adds(s, op) && AddressOf(s, op) == "a"
    ensures |Within(Next(s, op).made, "a", 0)| == |Within(s.made, "a", 0)| + 1
    ensures |RecentIds(Next(s, op).codes, "a", -HOUR)| == |RecentIds(s.codes, "a", -HOUR)| + 1
  {
    WithinOfNew(s.made, op.id, NewCode("a", 0), "a", 0);
    if op.Register? {
      OneRequest(s, "a", op.id);
    } else {
      RecentOfNew(s.codes, op.id, NewCode("a", 0), "a", -HOUR);
    }
  }

  lemma OneRegisters(s: Sys, n: nat)
    requires n < MAX_CODES_PER_HOUR && Fixture(s, n, 0, n, 0, 0)
    ensures Fixture(Next(s, Register("a", n + 1)), n + 1, 0, n + 1, 0, 0) && Load(s, Register("a", n + 1)) == 1
  {
    QueueSize(0, 0);
    NewCounts(s, Register("a", n + 1));
    TrackedStep(s, Register("a", n + 1));
  }

  lemma OneCounts(s: Sys, n: nat, high: nat, j: nat)
    requires n < MAX_CODES_PER_HOUR && j > 0 && Fixture(s, n, 0, high, 0, j - 1)
    ensures Fixture(Next(s, Count(j, "a")), n, 0, high, 0, j) && Load(s, Count(j, "a")) == j
  {
    QueueSize(0, j);
    assert Queue(0, j) == Queue(0, j - 1)[(j as int) := "a"];
  }

  lemma QueueShrinks(j: nat, k: nat)
    requires 0 < j <= k
    ensures j in Queue(j - 1, k) && Queue(j - 1, k)[j] == "a" && Queue(j, k) == Queue(j - 1, k) - {j as int}
  {
    assert Between(j - 1, j, k);
  }

  lemma OneCreates(s: Sys, n: nat, high: nat, j: nat, k: nat)
    requires 0 < j <= k && Fixture(s, n, j - 1, high, j - 1, k)
    ensures Fixture(Next(s, Create(j, -(j as int))), n + 1, j, high, j, k) && Load(s, Create(j, -(j as int))) == k - j
  {
    hide Tracked, Queue, Within, RecentIds, NewCode;
    var op := Create(j, -(j as int));
    QueueShrinks(j, k);
    QueueSize(j, k);
    NewCounts(s, op);
    TrackedStep(s, op);
  }

  lemma LoadSnoc(s: Sys, ops: seq<Op>, op: Op)
    ensures PeakLoad(s, ops + [op]) <= PeakLoad(s, ops) || PeakLoad(s, ops + [op]) == Load(Run(s, ops), op)
  {
    assert (ops + [op])[..|ops|] == ops;
  }

  lemma {:induction false} LoadConcat(s: Sys, a: seq<Op>, b: seq<Op>)
    ensures PeakLoad(s, a + b) <= PeakLoad(s, a) || PeakLoad(s, a + b) <= PeakLoad(Run(s, a), b)
  {
    if b == [] {
      assert a + b == a;
    } else {
      var front := b[..|b| - 1];
      assert (a + b)[..|a + b| - 1] == a + front;
      LoadConcat(s, a, front);
      RunConcat(s, a, front);
    }
  }

  lemma {:induction false} AfterRequests(s: Sys, n: nat)
    requires n <= MAX_CODES_PER_HOUR && Fixture(s, 0, 0, 0, 0, 0)
    ensures Fixture(Run(s, Requests(n)), n, 0, n, 0, 0) && PeakLoad(s, Requests(n)) <= 1
  {
    hide Fixture, Load, Next;
    if n == 0 {
      QueueFixture(s, 0, 0, 0, 0, 0);
    } else {
      AfterRequests(s, n - 1);
      OneRegisters(Run(s, Requests(n - 1)), n - 1);
      RunSnoc(s, Requests(n - 1), Register("a", n));
      LoadSnoc(s, Requests(n - 1), Register("a", n));
    }
  }

  lemma {:induction false} AfterCounts(s: Sys, n: nat, k: nat)
    requires n < MAX_CODES_PER_HOUR && Fixture(s, n, 0, n, 0, 0)
    ensures Fixture(Run(s, Counts(k)), n, 0, n, 0, k) && PeakLoad(s, Counts(k)) <= k
  {
    hide Fixture, Load, Next;
    if k == 0 {
      QueueFixture(s, n, 0, n, 0, 0);
    } else {
      AfterCounts(s, n, k - 1);
      OneCounts(Run(s, Counts(k - 1)), n, n, k);
      RunSnoc(s, Counts(k - 1), Count(k, "a"));
      LoadSnoc(s, Counts(k - 1), Count(k, "a"));
    }
  }

  lemma QueueFixture(s: Sys, n: nat, low: nat, high: nat, first: nat, last: nat)
    requires first <= last && Fixture(s, n, low, high, first, last)
    ensures |s.pending| == last - first
  {
    QueueSize(first, last);
  }

  lemma {:induction false} AfterCreates(s: Sys, n: nat, j: nat, k: nat)
    requires j <= k && Fixture(s, n, 0, n, 0, k)
    ensures Fixture(Run(s, Creates(j)), n + j, j, n, j, k) && PeakLoad(s, Creates(j)) <= k
  {
    hide Fixture, Load, Next;
    if j == 0 {
      QueueFixture(s, n, 0, n, 0, k);
    } else {
      AfterCreates(s, n, j - 1, k);
      var op := Create(j, -(j as int));
      OneCreates(Run(s, Creates(j - 1)), n + (j - 1), n, j, k);
      RunSnoc(s, Creates(j - 1), op);
      LoadSnoc(s, Creates(j - 1), op);
    }
  }

  lemma StartFixture()
    ensures Fixture(Initial(0), 0, 0, 0, 0, 0)
  {
    assert Queue(0, 0) == map[];
    assert Within(map[], "a", 0) == {} && RecentIds(map[], "a", -HOUR) == {};
  }

  lemma {:induction false} NoCleanup(n: nat, k: nat, j: nat)
    ensures forall op | op in Requests(n) + Counts(k) + Creates(j) :: !op.Cleanup?
  {
    if n > 0 {
      NoCleanup(n - 1, k, j);
    } else if k > 0 {
      NoCleanup(n, k - 1, j);
    } else if j > 0 {
      NoCleanup(n, k, j - 1);
    }
  }

  /** For every k some run with at most k registrations under way, and no clean-up, creates that many codes at once. */
  lemma OverlappingLimitIsTight(k: nat) returns (ops: seq<Op>)
    requires k > 0
    ensures PeakLoad(Initial(0), ops) <= k && CleansOnlyOld(Initial(0), ops)
    ensures |Within(Run(Initial(0), ops).made, "a", 0)| == MAX_CODES_PER_HOUR - 1 + k
  {
    hide Load, Next, Initial;
    var n := MAX_CODES_PER_HOUR - 1;
    var s := Initial(0);
    StartFixture();
    AfterRequests(s, n);
    var s1 := Run(s, Requests(n));
    AfterCounts(s1, n, k);
    AfterCreates(Run(s1, Counts(k)), n, k, k);
    ops := Requests(n) + Counts(k) + Creates(k);
    RunConcat(s, Requests(n), Counts(k));
    LoadConcat(s, Requests(n), Counts(k));
    RunConcat(s, Requests(n) + Counts(k), Creates(k));
    LoadConcat(s, Requests(n) + Counts(k), Creates(k));
    NoCleanup(n, k, k);
    WithoutCleanup(s, ops);
  }
}
