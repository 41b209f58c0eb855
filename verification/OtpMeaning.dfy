/** What every step does to every code, and that registrations of one address do not touch another. */
module OtpMeaning {
  import opened Common
  import opened OtpSpec
  import opened OtpProtocol

  // ----- Single codes -----

  /** A new code is good for ten minutes, to the second, for five tries, and once. */
  lemma CodeLifetime(email: string, created: int, attempts: nat, used: bool, now: int)
    ensures var otp := NewCode(email, created).(attempts := attempts, used := used);
            && (Admits(map[1 := otp], 1, now) <==> now <= created + 600 && attempts < 5 && !used)
            && (Live(otp, now) <==> now <= created + 600 && !used)
    ensures NewCode(email, created).attempts == 0 && !NewCode(email, created).used
    ensures NewCode(email, created).email == email && NewCode(email, created).createdAt == created
    ensures !Admits(map[], 1, now)
  {
  }

  /** The sixth code of an address within an hour is refused, and no earlier one. */
  lemma LimitOfFive(codes: Codes, email: string, now: int, recent: set<Id>)
    requires recent == set c | c in codes && codes[c].email == email && codes[c].createdAt > now - 3600
    ensures RateLimited(codes, email, now) <==> |recent| >= 5
  {
    assert recent == RecentIds(codes, email, now - HOUR);
  }

  // ----- Every step, every code -----

  /** The step takes the code out of the table: a clean-up more than ten minutes after its creation. */
  predicate Drops(s: Sys, op: Op, c: Id) {
    op.Cleanup? && c in s.made && s.now > s.made[c].createdAt + 600
  }

  /** The step voids the live codes of the address. */
  predicate Voids(s: Sys, op: Op, email: string) {
    || (op.Register? && op.email == email && op.id !in s.made && !RateLimited(s.codes, email, s.now))
    || (op.Invalidate? && op.request in s.pending && s.pending[op.request] == email)
  }

  /** A verification of the code that has passed its checks writes. */
  predicate Writes(s: Sys, op: Op, c: Id, correct: bool) {
    op.Finish? && op.verifier in s.inFlight && s.inFlight[op.verifier] == Verifier(c, correct)
  }

  /** What a step does to a stored code. It goes only with a clean-up after its ten minutes. It becomes used only by a
      right verification of that code, or, if it has not expired, by the voiding of the codes of its address. Its
      attempts grow only by a wrong verification of that code. Address and times stay. */
  lemma CodeAfter(s: Sys, op: Op, c: Id)
    requires Tracked(s) && c in s.codes
    ensures var t, otp := Next(s, op), s.codes[c];
            && (c in t.codes <==> !Drops(s, op, c))
            && (c in t.codes ==>
                  t.codes[c] == Code(otp.email, otp.expiresAt,
                                     otp.used || Writes(s, op, c, true)
                                     || (Voids(s, op, otp.email) && s.now <= otp.createdAt + 600),
                                     if Writes(s, op, c, false) then otp.attempts + 1 else otp.attempts,
                                     otp.createdAt))
  {
  }

  /** The step creates the code for the address: an accepted registration, or the last step of one. */
  predicate Issues(s: Sys, op: Op, c: Id, email: string) {
    && c !in s.made
    && (|| (op.Register? && op.id == c && Voids(s, op, email))
        || (op.Create? && op.id == c && op.request in s.pending && s.pending[op.request] == email))
  }

  /** A code that a step puts into the table is new, unused, and good for ten minutes from now. */
  lemma CodeCreated(s: Sys, op: Op, c: Id)
    requires Tracked(s) && c !in s.codes
    ensures c in Next(s, op).codes <==> exists email :: Issues(s, op, c, email)
    ensures forall email | Issues(s, op, c, email) ::
              Next(s, op).codes[c] == Code(email, s.now + 600, false, 0, s.now)
  {
    if op.Register? {
      assert c in Next(s, op).codes <==> Issues(s, op, c, op.email);
    } else if op.Create? && op.request in s.pending {
      assert c in Next(s, op).codes <==> Issues(s, op, c, s.pending[op.request]);
    }
  }

  /** What a step writes into the log: the win of a right verification of an unused code, or the codes that the voiding
      of an address makes used; otherwise nothing. */
  lemma LogAfter(s: Sys, op: Op, email: string, c: Id)
    requires Tracked(s)
    ensures var t := Next(s, op);
            && (Writes(s, op, c, true) && c in s.codes && !s.codes[c].used ==> t.log == s.log + [Win(c)])
            && (Voids(s, op, email) ==>
                  && |t.log| == |s.log| + 1 && t.log[..|s.log|] == s.log && t.log[|s.log|].Voided?
                  && forall x :: x in t.log[|s.log|].codes <==>
                       x in s.codes && s.codes[x].email == email && !s.codes[x].used
                       && s.now <= s.codes[x].createdAt + 600)
            && (t.log != s.log ==> op.Finish? || op.Register? || op.Invalidate?)
            && (op.Finish? && t.log != s.log ==> exists x :: Writes(s, op, x, true) && x in s.codes && !s.codes[x].used)
  {
    var t := Next(s, op);
    if op.Finish? && t.log != s.log {
      var v := s.inFlight[op.verifier];
      assert v == Verifier(v.code, true);
      assert Writes(s, op, v.code, true);
    }
  }

  // ----- Other addresses -----

  /** The step is a registration, or the invalidating step of one, for the address. */
  predicate Concerns(s: Sys, op: Op, email: string) {
    || (op.Register? && op.email == email)
    || (op.Invalidate? && op.request in s.pending && s.pending[op.request] == email)
  }

  /** A registration, and a separate invalidation, leave the codes of all other addresses as they are. */
  lemma OthersKeepCodes(s: Sys, op: Op, email: string, c: Id)
    requires Tracked(s) && c in s.codes && s.codes[c].email != email
    requires Concerns(s, op, email)
    ensures c in Next(s, op).codes && Next(s, op).codes[c] == s.codes[c]
  {
    CodeAfter(s, op, c);
  }

  /** Nor do they change which of those codes can still be won. */
  lemma OthersCanWin(s: Sys, op: Op, email: string, c: Id)
    requires Tracked(s) && c in s.made && s.made[c].email != email
    requires Concerns(s, op, email)
    ensures CanWin(Next(s, op), c) <==> CanWin(s, c)
  {
    var t := Next(s, op);
    CanWinIff(s, c);
    CanWinIff(t, c);
    assert t.inFlight == s.inFlight && (Correcting(t, c) <==> Correcting(s, c));
    if c in s.codes {
      OthersKeepCodes(s, op, email, c);
    }
  }

  /** Of the address itself, used and expired codes stay as they are, and no older code stays live. */
  lemma OwnCodesVoided(s: Sys, email: string, id: Id, c: Id)
    requires Tracked(s) && id !in s.made && !RateLimited(s.codes, email, s.now)
    requires c in s.codes && s.codes[c].email == email
    ensures var t := Next(s, Register(email, id));
            && c in t.codes && !Live(t.codes[c], t.now)
            && (s.codes[c].used || s.now > s.codes[c].createdAt + 600 ==> t.codes[c] == s.codes[c])
            && t.codes[c] == s.codes[c].(used := t.codes[c].used)
  {
    CodeAfter(s, Register(email, id), c);
  }

  /** A registration over the limit does nothing, nor does the counting step of one. */
  lemma RefusedRegistration(s: Sys, email: string, id: Id)
    requires RateLimited(s.codes, email, s.now)
    ensures Next(s, Register(email, id)) == s && forall request :: Next(s, Count(request, email)) == s
  {
  }
}
