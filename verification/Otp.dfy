/** One-time registration codes (internal/domain/otpcode/otpcode.go, internal/storage/mock/repositories.go). */
module OtpSpec {
  import opened Common

  /** Times are in seconds. */
  const MINUTE := 60
  const HOUR := 60 * MINUTE
  const CODE_EXPIRY := 10 * MINUTE
  const MAX_ATTEMPTS := 5
  const MAX_CODES_PER_HOUR := 5

  datatype Code = Code(email: string, expiresAt: int, used: bool, attempts: nat, createdAt: int)

  type Codes = map<Id, Code>

  function NewCode(email: string, now: int): Code {
    Code(email, now + CODE_EXPIRY, false, 0, now)
  }

  predicate IsExpired(c: Code, now: int) {
    now > c.expiresAt
  }

  predicate IsValid(c: Code, now: int) {
    !IsExpired(c, now) && !c.used && c.attempts < MAX_ATTEMPTS
  }

  predicate Live(c: Code, now: int) {
    !c.used && !IsExpired(c, now)
  }

  function RecentIds(codes: Codes, email: string, since: int): set<Id> {
    set id | id in codes && codes[id].email == email && codes[id].createdAt > since
  }

  /** The codes that an invalidation switches to used. */
  function LiveIds(codes: Codes, email: string, now: int): set<Id> {
    set id | id in codes && codes[id].email == email && Live(codes[id], now)
  }

  function Invalidated(codes: Codes, email: string, now: int): Codes {
    map id | id in codes ::
      if codes[id].email == email && Live(codes[id], now) then codes[id].(used := true) else codes[id]
  }

  function Unexpired(codes: Codes, now: int): Codes {
    map id | id in codes && !IsExpired(codes[id], now) :: codes[id]
  }

  predicate RateLimited(codes: Codes, email: string, now: int) {
    |RecentIds(codes, email, now - HOUR)| >= MAX_CODES_PER_HOUR
  }

  /** A registration request replaces the live codes of the address by a new one, unless it is refused. */
  function Registered(codes: Codes, email: string, now: int, id: Id): Codes {
    if RateLimited(codes, email, now) then codes else Invalidated(codes, email, now)[id := NewCode(email, now)]
  }

  /** The copy that a verification reads passes its checks. */
  predicate Admits(codes: Codes, id: Id, now: int) {
    id in codes && IsValid(codes[id], now)
  }

  /** The verification succeeds: the code is right and still unused when it is marked. */
  predicate Wins(codes: Codes, id: Id, correct: bool) {
    correct && id in codes && !codes[id].used
  }

  function Finished(codes: Codes, id: Id, correct: bool): Codes {
    if id !in codes then codes
    else if correct then codes[id := codes[id].(used := true)]
    else codes[id := codes[id].(attempts := codes[id].attempts + 1)]
  }
}

module OtpRepositories {
  import opened Common
  import opened OtpSpec

  class OTPCodeRepository {
    var codes: Codes

    constructor ()
      ensures codes == map[]
    {
      codes := map[];
    }

    method Create(otp: Code) returns (id: Id)
      modifies this
      ensures id !in old(codes) && codes == old(codes)[id := otp.(used := false, attempts := 0)]
    {
      id := NewId(codes.Keys);
      codes := codes[id := otp.(used := false, attempts := 0)];
    }

    method GetByID(id: Id) returns (otp: Option<Code>)
      ensures otp == if id in codes then Some(codes[id]) else None
    {
      otp := if id in codes then Some(codes[id]) else None;
    }

    method CountByEmailSince(email: string, since: int) returns (count: nat)
      ensures count == |RecentIds(codes, email, since)|
    {
      count := 0;
      var todo := codes.Keys;
      while todo != {}
        invariant todo <= codes.Keys
        invariant count == |RecentIds(codes, email, since) - todo|
      {
        var id := NextKey(todo);
        ghost var recent := RecentIds(codes, email, since);
        if codes[id].email == email && codes[id].createdAt > since {
          assert recent - (todo - {id}) == (recent - todo) + {id};
          count := count + 1;
        } else {
          assert recent - (todo - {id}) == recent - todo;
        }
        todo := todo - {id};
      }
      assert RecentIds(codes, email, since) - {} == RecentIds(codes, email, since);
    }

    method MarkUsedIfUnused(id: Id) returns (ok: bool)
      modifies this
      ensures ok <==> id in old(codes) && !old(codes)[id].used
      ensures codes == if ok then old(codes)[id := old(codes)[id].(used := true)] else old(codes)
    {
      if id !in codes || codes[id].used {
        return false;
      }
      codes := codes[id := codes[id].(used := true)];
      return true;
    }

    method IncrementAttempts(id: Id) returns (attempts: Option<nat>)
      modifies this
      ensures attempts == if id in old(codes) then Some(old(codes)[id].attempts + 1) else None
      ensures codes == Finished(old(codes), id, false)
    {
      if id !in codes {
        return None;
      }
      codes := codes[id := codes[id].(attempts := codes[id].attempts + 1)];
      return Some(codes[id].attempts);
    }

    method InvalidateByEmail(email: string, now: int)
      modifies this
      ensures codes == Invalidated(old(codes), email, now)
      ensures codes.Keys == old(codes).Keys
      ensures forall c | c in codes && codes[c].email != email :: codes[c] == old(codes)[c]
      ensures forall c | c in codes && codes[c].email == email ::
                codes[c] == old(codes)[c].(used := old(codes)[c].used || now <= old(codes)[c].expiresAt)
    {
      ghost var before := codes;
      var todo := codes.Keys;
      while todo != {}
        invariant todo <= codes.Keys == before.Keys
        invariant forall id | id in codes ::
                    codes[id] == if id in todo then before[id] else Invalidated(before, email, now)[id]
      {
        var id := NextKey(todo);
        if codes[id].email == email && !codes[id].used && !IsExpired(codes[id], now) {
          codes := codes[id := codes[id].(used := true)];
        }
        todo := todo - {id};
      }
      assert forall id | id in codes :: codes[id] == Invalidated(before, email, now)[id];
    }

    method DeleteExpired(now: int)
      modifies this
      ensures codes == Unexpired(old(codes), now)
    {
      ghost var before := codes;
      var todo := codes.Keys;
      while todo != {}
        invariant todo <= codes.Keys <= before.Keys
        invariant forall id | id in before :: id in codes <==> id in todo || !IsExpired(before[id], now)
        invariant forall id | id in codes :: codes[id] == before[id]
      {
        var id := NextKey(todo);
        if IsExpired(codes[id], now) {
          codes := codes - {id};
        }
        todo := todo - {id};
      }
      assert forall id :: id in codes <==> id in Unexpired(before, now);
      assert forall id | id in codes :: codes[id] == Unexpired(before, now)[id];
    }
  }

  /** The steps of the two handlers (internal/api/registration.go); whether the submitted code hashes to the stored
      one is the parameter `correct`. */
  class RegistrationHandler {
    const otps: OTPCodeRepository

    constructor (otps: OTPCodeRepository)
      ensures this.otps == otps
    {
      this.otps := otps;
    }

    method Register(email: string, now: int) returns (id: Option<Id>)
      modifies otps
      ensures id.None? <==> RateLimited(old(otps.codes), email, now)
      ensures id.Some? ==> id.value !in old(otps.codes)
      ensures otps.codes == Registered(old(otps.codes), email, now, if id.Some? then id.value else 0)
      ensures id.None? ==> otps.codes == old(otps.codes)
      ensures id.Some? ==> id.value in otps.codes && otps.codes[id.value] == Code(email, now + 600, false, 0, now)
      ensures forall c | c in old(otps.codes) && old(otps.codes)[c].email != email ::
                c in otps.codes && otps.codes[c] == old(otps.codes)[c]
    {
      var count := otps.CountByEmailSince(email, now - HOUR);
      if count >= MAX_CODES_PER_HOUR {
        return None;
      }
      otps.InvalidateByEmail(email, now);
      var created := otps.Create(NewCode(email, now));
      id := Some(created);
    }

    /** The reads: the checks are made on a copy, and nothing is locked afterwards. */
    method BeginVerify(id: Id, now: int) returns (admitted: bool)
      ensures admitted <==> Admits(otps.codes, id, now)
    {
      var otp := otps.GetByID(id);
      if otp.None? {
        return false;
      }
      if IsExpired(otp.value, now) || otp.value.used {
        return false;
      }
      return otp.value.attempts < MAX_ATTEMPTS;
    }

    /** The write: one atomic increment, or one atomic compare-and-set. */
    method FinishVerify(id: Id, correct: bool) returns (won: bool)
      modifies otps
      ensures won <==> Wins(old(otps.codes), id, correct)
      ensures otps.codes == Finished(old(otps.codes), id, correct)
    {
      if !correct {
        var _ := otps.IncrementAttempts(id);
        return false;
      }
      won := otps.MarkUsedIfUnused(id);
    }

    /** A verification that nothing interleaves with. */
    method Verify(id: Id, correct: bool, now: int) returns (won: bool)
      modifies otps
      ensures won <==> correct && Admits(old(otps.codes), id, now)
      ensures otps.codes ==
              if Admits(old(otps.codes), id, now) then Finished(old(otps.codes), id, correct) else old(otps.codes)
    {
      var admitted := BeginVerify(id, now);
      if !admitted {
        return false;
      }
      won := FinishVerify(id, correct);
    }
  }
}
