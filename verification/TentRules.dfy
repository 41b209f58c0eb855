/** Calendar dates and whole-year ages (internal/domain/event/tent_rules.go). */
module Calendar {

  datatype Date = Date(year: int, month: int, day: int)

  /** A civil date with the nanosecond of that day; all times are in one time zone. */
  datatype Instant = Instant(date: Date, clock: nat)

  predicate IsLeapYear(year: int) {
    year % 4 == 0 && (year % 100 != 0 || year % 400 == 0)
  }

  function DaysIn(year: int, month: int): int {
    if month == 2 then (if IsLeapYear(year) then 29 else 28)
    else if month in {4, 6, 9, 11} then 30
    else 31
  }

  predicate ValidDate(d: Date) {
    1 <= d.month <= 12 && 1 <= d.day <= DaysIn(d.year, d.month)
  }

  predicate OnOrBefore(a: Date, b: Date) {
    a.year < b.year || (a.year == b.year && (a.month < b.month || (a.month == b.month && a.day <= b.day)))
  }

  predicate Before(a: Instant, b: Instant) {
    !OnOrBefore(b.date, a.date) || (a.date == b.date && a.clock < b.clock)
  }

  /** The k-th birthday of someone born on `birth`; 29 February falls on 28 February in a common year. */
  function Anniversary(birth: Date, k: int): Date {
    var year := birth.year + k;
    if birth.month == 2 && birth.day == 29 && !IsLeapYear(year) then Date(year, 2, 28)
    else Date(year, birth.month, birth.day)
  }

  /** The age in whole years, read off the anniversary that falls in the year of `at`. */
  function Age(birth: Instant, at: Instant): int {
    if Before(at, birth) then 0
    else
      var years := at.date.year - birth.date.year;
      if OnOrBefore(Anniversary(birth.date, years), at.date) then years else years - 1
  }

  method AgeWholeYears(birth: Instant, at: Instant) returns (years: int)
    ensures years == Age(birth, at)
  {
    if Before(at, birth) {
      return 0;
    }
    years := at.date.year - birth.date.year;
    var bdMonth, bdDay := birth.date.month, birth.date.day;
    if bdMonth == 2 && bdDay == 29 && !IsLeapYear(at.date.year) {
      bdDay := 28;
    }
    if at.date.month < bdMonth || (at.date.month == bdMonth && at.date.day < bdDay) {
      years := years - 1;
    }
  }

  /** Age is the largest k whose k-th anniversary has been reached, and 0 before birth. */
  lemma AgeCountsAnniversaries(birth: Instant, at: Instant, k: int)
    requires ValidDate(birth.date) && ValidDate(at.date)
    ensures Before(at, birth) ==> Age(birth, at) == 0
    ensures !Before(at, birth) ==> Age(birth, at) >= 0
    ensures !Before(at, birth) ==> (OnOrBefore(Anniversary(birth.date, k), at.date) <==> k <= Age(birth, at))
  {
  }

  /** Someone born on 29 February is a year older from 28 February on in a common year, and from 29 February on in a
      leap year: one that 4 divides and 100 does not, or that 400 divides. */
  lemma LeapDayBirthday(birth: Instant, year: int, clock: nat)
    requires birth.date == Date(birth.date.year, 2, 29) && year > birth.date.year
    ensures var leap := year % 4 == 0 && (year % 100 != 0 || year % 400 == 0);
            var turned := year - birth.date.year;
            && Age(birth, Instant(Date(year, 2, 27), clock)) == turned - 1
            && Age(birth, Instant(Date(year, 2, 28), clock)) == (if leap then turned - 1 else turned)
            && (leap ==> Age(birth, Instant(Date(year, 2, 29), clock)) == turned)
            && Age(birth, Instant(Date(year, 3, 1), clock)) == turned
  {
  }

  /** Anybody else is a year older from the same day of the same month on, and nobody has an age before birth. */
  lemma OtherBirthday(birth: Instant, at: Instant)
    requires !(birth.date.month == 2 && birth.date.day == 29)
    ensures var reached := at.date.month > birth.date.month ||
                           (at.date.month == birth.date.month && at.date.day >= birth.date.day);
            && (at.date.year > birth.date.year ==>
                  Age(birth, at) == at.date.year - birth.date.year - if reached then 0 else 1)
            && (at.date.year <= birth.date.year ==> Age(birth, at) == 0)
  {
  }

  lemma AgeGrowsWithTime(birth: Instant, early: Instant, late: Instant)
    requires ValidDate(birth.date) && ValidDate(early.date) && ValidDate(late.date)
    requires !Before(late, early)
    ensures Age(birth, early) <= Age(birth, late)
  {
  }

  lemma EarlierBirthIsOlder(older: Instant, younger: Instant, at: Instant)
    requires ValidDate(older.date) && ValidDate(younger.date) && ValidDate(at.date)
    requires !Before(younger, older)
    ensures Age(younger, at) <= Age(older, at)
  {
  }

  /** Once both scouts are born, their age difference moves by at most one over all dates. */
  lemma AgeGapIsStable(a: Instant, b: Instant, day1: Instant, day2: Instant)
    requires ValidDate(a.date) && ValidDate(b.date) && ValidDate(day1.date) && ValidDate(day2.date)
    requires !Before(day1, a) && !Before(day1, b) && !Before(day2, a) && !Before(day2, b)
    ensures -1 <= (Age(a, day1) - Age(b, day1)) - (Age(a, day2) - Age(b, day2)) <= 1
  {
  }
}

/** The tenting rule engine: siblings, gender and pairwise age gap (internal/domain/event/tent_rules.go). */
module TentRules {
  import opened Common
  import opened Calendar

  datatype ParentLink = ParentLink(parent: Id, youth: Id)
  datatype ScoutPair = ScoutPair(a: Id, b: Id)
  datatype TentScout = TentScout(id: Id, name: string, gender: string, birthdate: Instant)

  /** The structured content of the program's violation messages. */
  datatype Violation =
    | NeverAlone(name: string)
    | MixedGender(names: seq<string>)
    | AgeGap(older: string, years: int, younger: string, limit: int)

  function NormalizePair(a: Id, b: Id): ScoutPair {
    if a <= b then ScoutPair(a, b) else ScoutPair(b, a)
  }

  // ----- Siblings -----

  /** The youths linked to `parent`, in the order of the links. */
  function YouthsOf(links: seq<ParentLink>, parent: Id): seq<Id> {
    if links == [] then []
    else
      var rest := YouthsOf(links[..|links| - 1], parent);
      if links[|links| - 1].parent == parent then rest + [links[|links| - 1].youth] else rest
  }

  ghost function PairsOf(youths: seq<Id>): set<ScoutPair> {
    set i, j | 0 <= i < j < |youths| :: NormalizePair(youths[i], youths[j])
  }

  /** Two different links of the same parent make their youths siblings. */
  ghost function Siblings(links: seq<ParentLink>): set<ScoutPair> {
    set i, j | 0 <= i < j < |links| && links[i].parent == links[j].parent
      :: NormalizePair(links[i].youth, links[j].youth)
  }

  /** The pairs that one more link creates. */
  ghost predicate NewSibling(links: seq<ParentLink>, l: ParentLink, pair: ScoutPair) {
    exists x | ParentLink(l.parent, x) in links :: pair == NormalizePair(x, l.youth)
  }

  lemma YouthsOfMembers(links: seq<ParentLink>, parent: Id, y: Id)
    ensures y in YouthsOf(links, parent) <==> ParentLink(parent, y) in links
  {
  }

  lemma PairsOfAppend(youths: seq<Id>, y: Id, pair: ScoutPair)
    ensures pair in PairsOf(youths + [y]) <==>
            pair in PairsOf(youths) || exists x | x in youths :: pair == NormalizePair(x, y)
  {
    var all := youths + [y];
    if pair in PairsOf(all) {
      var i, j :| 0 <= i < j < |all| && pair == NormalizePair(all[i], all[j]);
      if j < |youths| {
        assert pair == NormalizePair(youths[i], youths[j]);
      } else {
        assert youths[i] in youths;
      }
    }
    if pair in PairsOf(youths) {
      var i, j :| 0 <= i < j < |youths| && pair == NormalizePair(youths[i], youths[j]);
      assert all[i] == youths[i] && all[j] == youths[j];
    }
    if x :| x in youths && pair == NormalizePair(x, y) {
      var i :| 0 <= i < |youths| && youths[i] == x;
      assert all[i] == x && all[|youths|] == y;
    }
  }

  lemma SiblingsAppend(links: seq<ParentLink>, l: ParentLink, pair: ScoutPair)
    ensures pair in Siblings(links + [l]) <==>
            pair in Siblings(links) || NewSibling(links, l, pair)
  {
    var all := links + [l];
    if pair in Siblings(all) {
      var i, j :| 0 <= i < j < |all| && all[i].parent == all[j].parent
        && pair == NormalizePair(all[i].youth, all[j].youth);
      if j < |links| {
        assert links[i] == all[i] && links[j] == all[j];
      } else {
        assert ParentLink(l.parent, all[i].youth) == links[i];
      }
    }
    if pair in Siblings(links) {
      var i, j :| 0 <= i < j < |links| && links[i].parent == links[j].parent
        && pair == NormalizePair(links[i].youth, links[j].youth);
      assert all[i] == links[i] && all[j] == links[j];
    }
    if x :| ParentLink(l.parent, x) in links && pair == NormalizePair(x, l.youth) {
      var i :| 0 <= i < |links| && links[i] == ParentLink(l.parent, x);
      assert all[i] == links[i] && all[|links|] == l;
    }
  }

  /** Grouping the links by parent loses no pair and invents none. */
  lemma {:induction false} SiblingsByParent(links: seq<ParentLink>, pair: ScoutPair)
    ensures pair in Siblings(links) <==> exists parent :: pair in PairsOf(YouthsOf(links, parent))
  {
    if links == [] {
      assert forall parent :: YouthsOf(links, parent) == [];
    } else {
      var n := |links| - 1;
      var init, l := links[..n], links[n];
      assert links == init + [l];
      SiblingsByParent(init, pair);
      SiblingsAppend(init, l, pair);
      forall parent
        ensures pair in PairsOf(YouthsOf(links, parent)) <==>
                pair in PairsOf(YouthsOf(init, parent)) || (parent == l.parent && NewSibling(init, l, pair))
      {
        PairsOfAppend(YouthsOf(init, parent), l.youth, pair);
        forall x ensures x in YouthsOf(init, parent) <==> ParentLink(parent, x) in init {
          YouthsOfMembers(init, parent, x);
        }
      }
      if NewSibling(init, l, pair) {
        assert pair in PairsOf(YouthsOf(links, l.parent));
      }
      if parent :| pair in PairsOf(YouthsOf(init, parent)) {
        assert pair in PairsOf(YouthsOf(links, parent));
      }
      if parent :| pair in PairsOf(YouthsOf(links, parent)) {
        assert pair in PairsOf(YouthsOf(init, parent)) || NewSibling(init, l, pair);
      }
    }
  }

  /** Two distinct scouts are siblings exactly when some parent is linked to both; link order is irrelevant. */
  lemma SiblingsShareAParent(links: seq<ParentLink>, a: Id, b: Id)
    requires a != b
    ensures NormalizePair(a, b) in Siblings(links) <==>
            exists parent :: ParentLink(parent, a) in links && ParentLink(parent, b) in links
  {
  }

  lemma MoreLinksMoreSiblings(links: seq<ParentLink>, more: seq<ParentLink>)
    ensures Siblings(links) <= Siblings(links + more)
  {
    var all := links + more;
    forall pair | pair in Siblings(links) ensures pair in Siblings(all) {
      var i, j :| 0 <= i < j < |links| && links[i].parent == links[j].parent
        && pair == NormalizePair(links[i].youth, links[j].youth);
      assert all[i] == links[i] && all[j] == links[j];
    }
  }

  method SiblingPairs(links: seq<ParentLink>) returns (pairs: set<ScoutPair>)
    ensures pairs == Siblings(links)
  {
    var parentToYouth: map<Id, seq<Id>> := map[];
    for n := 0 to |links|
      invariant forall p :: ListOf(parentToYouth, p) == YouthsOf(links[..n], p)
    {
      var l := links[n];
      assert links[..n + 1][..n] == links[..n];
      parentToYouth := parentToYouth[l.parent := ListOf(parentToYouth, l.parent) + [l.youth]];
    }
    assert links[..|links|] == links;
    pairs := PairsPerParent(parentToYouth);
    forall pair ensures pair in pairs <==> pair in Siblings(links) {
      SiblingsByParent(links, pair);
      if p :| p in parentToYouth && pair in PairsOf(parentToYouth[p]) {
        assert ListOf(parentToYouth, p) == YouthsOf(links, p);
      }
      if p :| pair in PairsOf(YouthsOf(links, p)) {
        assert ListOf(parentToYouth, p) == YouthsOf(links, p);
      }
    }
  }

  ghost predicate FromParent(parentToYouth: map<Id, seq<Id>>, todo: set<Id>, pair: ScoutPair) {
    exists p | p in parentToYouth && p !in todo :: pair in PairsOf(parentToYouth[p])
  }

  /** The loop over the parent index, in whatever order the map yields its keys. */
  method PairsPerParent(parentToYouth: map<Id, seq<Id>>) returns (pairs: set<ScoutPair>)
    ensures forall pair :: pair in pairs <==> FromParent(parentToYouth, {}, pair)
  {
    pairs := {};
    var todo := parentToYouth.Keys;
    while todo != {}
      invariant todo <= parentToYouth.Keys
      invariant forall pair :: pair in pairs <==> FromParent(parentToYouth, todo, pair)
    {
      var parent := NextKey(todo);
      var found := PairUp(parentToYouth[parent]);
      pairs := pairs + found;
      todo := todo - {parent};
    }
  }

  /** The two index loops over the youths of one parent. */
  method PairUp(youths: seq<Id>) returns (pairs: set<ScoutPair>)
    ensures pairs == PairsOf(youths)
  {
    pairs := {};
    for i := 0 to |youths|
      invariant pairs == set a, b | 0 <= a < i && a < b < |youths| :: NormalizePair(youths[a], youths[b])
    {
      ghost var before := pairs;
      for j := i + 1 to |youths|
        invariant pairs == before + set b | i < b < j :: NormalizePair(youths[i], youths[b])
      {
        pairs := pairs + {NormalizePair(youths[i], youths[j])};
      }
    }
  }

  // ----- Legal tents -----

  /** What the rules look at: the scout's age on the day the event starts. */
  datatype Camper = Camper(id: Id, name: string, gender: string, age: int)

  function OnDay(scout: TentScout, start: Instant): Camper {
    Camper(scout.id, scout.name, scout.gender, Age(scout.birthdate, start))
  }

  function Campers(scouts: seq<TentScout>, start: Instant): seq<Camper> {
    seq(|scouts|, i requires 0 <= i < |scouts| => OnDay(scouts[i], start))
  }

  ghost predicate SameGender(tent: seq<Camper>) {
    forall i, j | 0 <= i < |tent| && 0 <= j < |tent| :: tent[i].gender == tent[j].gender
  }

  function AgeDifference(a: Camper, b: Camper): int {
    if a.age < b.age then b.age - a.age else a.age - b.age
  }

  predicate MayShare(a: Camper, b: Camper, maxAgeGap: int, siblings: set<ScoutPair>) {
    NormalizePair(a.id, b.id) in siblings || AgeDifference(a, b) <= maxAgeGap
  }

  ghost predicate AllMayShare(tent: seq<Camper>, maxAgeGap: int, siblings: set<ScoutPair>) {
    forall i, j | 0 <= i < j < |tent| :: MayShare(tent[i], tent[j], maxAgeGap, siblings)
  }

  /** What the rules ask of a tent, with no mention of how violations are listed. */
  ghost predicate Legal(tent: seq<Camper>, maxAgeGap: int, siblings: set<ScoutPair>) {
    SameGender(tent) && AllMayShare(tent, maxAgeGap, siblings)
  }

  /** The zero or one age-gap entries of the pair (a, b); the older scout is named first. */
  function GapEntry(a: Camper, b: Camper, maxAgeGap: int, siblings: set<ScoutPair>): seq<Violation> {
    if MayShare(a, b, maxAgeGap, siblings) then []
    else if b.age > a.age then [AgeGap(b.name, b.age - a.age, a.name, maxAgeGap)]
    else [AgeGap(a.name, a.age - b.age, b.name, maxAgeGap)]
  }

  /** The entries of scout i against the scouts i+1 .. m-1. */
  function GapsOfRow(tent: seq<Camper>, i: nat, m: nat, maxAgeGap: int, siblings: set<ScoutPair>): seq<Violation>
    requires i < |tent| && m <= |tent|
  {
    if m <= i + 1 then []
    else GapsOfRow(tent, i, m - 1, maxAgeGap, siblings) + GapEntry(tent[i], tent[m - 1], maxAgeGap, siblings)
  }

  /** The entries of the first n scouts against all later ones. */
  function Gaps(tent: seq<Camper>, n: nat, maxAgeGap: int, siblings: set<ScoutPair>): seq<Violation>
    requires n <= |tent|
  {
    if n == 0 then []
    else Gaps(tent, n - 1, maxAgeGap, siblings) + GapsOfRow(tent, n - 1, |tent|, maxAgeGap, siblings)
  }

  function NamesOf(tent: seq<Camper>): seq<string> {
    seq(|tent|, i requires 0 <= i < |tent| => tent[i].name)
  }

  /** The violation list of a tent, in reporting order. */
  ghost function Violations(tent: seq<Camper>, maxAgeGap: int, siblings: set<ScoutPair>,
                            includeAlone: bool): seq<Violation> {
    if |tent| == 1 && includeAlone then [NeverAlone(tent[0].name)]
    else (if SameGender(tent) then [] else [MixedGender(NamesOf(tent))]) + Gaps(tent, |tent|, maxAgeGap, siblings)
  }

  /** The violations that stop a placement: all but the never-alone warning. */
  ghost function Blocking(tent: seq<Camper>, maxAgeGap: int, siblings: set<ScoutPair>): seq<Violation> {
    Violations(tent, maxAgeGap, siblings, false)
  }

  method ValidateTent(scouts: seq<TentScout>, start: Instant, maxAgeGap: int, siblings: set<ScoutPair>,
                      includeAlone: bool)
    returns (violations: seq<Violation>)
    ensures violations == Violations(Campers(scouts, start), maxAgeGap, siblings, includeAlone)
  {
    ghost var tent := Campers(scouts, start);
    if |scouts| == 1 && includeAlone {
      return [NeverAlone(scouts[0].name)];
    }
    if |scouts| == 0 || |scouts| == 1 {
      assert |scouts| == 1 ==> GapsOfRow(tent, 0, 1, maxAgeGap, siblings) == [];
      assert Gaps(tent, |tent|, maxAgeGap, siblings) == [];
      return [];
    }
    violations := [];
    var mixed := HasTwoGenders(scouts, start);
    if mixed {
      var names := ListNames(scouts, start);
      violations := [MixedGender(names)];
    }
    var gaps := CompareAllAges(scouts, start, maxAgeGap, siblings);
    violations := violations + gaps;
  }

  /** Collects the genders in a set, as the rule engine does in a map. */
  method HasTwoGenders(scouts: seq<TentScout>, ghost start: Instant) returns (mixed: bool)
    requires scouts != []
    ensures mixed <==> !SameGender(Campers(scouts, start))
  {
    var genders := {};
    for k := 0 to |scouts|
      invariant genders == set i | 0 <= i < k :: scouts[i].gender
    {
      genders := genders + {scouts[k].gender};
    }
    GenderCount(scouts, start, genders);
    mixed := |genders| > 1;
  }

  method ListNames(scouts: seq<TentScout>, ghost start: Instant) returns (names: seq<string>)
    ensures names == NamesOf(Campers(scouts, start))
  {
    names := [];
    for i := 0 to |scouts|
      invariant names == NamesOf(Campers(scouts, start))[..i]
    {
      names := names + [scouts[i].name];
    }
  }

  /** The pairwise loops over all scouts. */
  method CompareAllAges(scouts: seq<TentScout>, start: Instant, maxAgeGap: int, siblings: set<ScoutPair>)
    returns (violations: seq<Violation>)
    ensures violations == Gaps(Campers(scouts, start), |scouts|, maxAgeGap, siblings)
  {
    violations := [];
    for i := 0 to |scouts|
      invariant violations == Gaps(Campers(scouts, start), i, maxAgeGap, siblings)
    {
      var row := CompareWithLater(scouts, i, start, maxAgeGap, siblings);
      violations := violations + row;
    }
  }

  method CompareWithLater(scouts: seq<TentScout>, i: nat, start: Instant, maxAgeGap: int, siblings: set<ScoutPair>)
    returns (row: seq<Violation>)
    requires i < |scouts|
    ensures row == GapsOfRow(Campers(scouts, start), i, |scouts|, maxAgeGap, siblings)
  {
    row := [];
    for j := i + 1 to |scouts|
      invariant row == GapsOfRow(Campers(scouts, start), i, j, maxAgeGap, siblings)
    {
      var entry := CompareAges(scouts[i], scouts[j], start, maxAgeGap, siblings);
      row := row + entry;
    }
  }

  /** The body of the pairwise loop: nothing for siblings and close ages, else one entry. */
  method CompareAges(a: TentScout, b: TentScout, start: Instant, maxAgeGap: int, siblings: set<ScoutPair>)
    returns (entry: seq<Violation>)
    ensures entry == GapEntry(OnDay(a, start), OnDay(b, start), maxAgeGap, siblings)
  {
    if NormalizePair(a.id, b.id) in siblings {
      return [];
    }
    var ageA := AgeWholeYears(a.birthdate, start);
    var ageB := AgeWholeYears(b.birthdate, start);
    var diff := ageA - ageB;
    if diff < 0 {
      diff := -diff;
    }
    if diff <= maxAgeGap {
      return [];
    }
    var older, younger := a, b;
    if ageB > ageA {
      older, younger := b, a;
    }
    entry := [AgeGap(older.name, diff, younger.name, maxAgeGap)];
  }

  lemma GenderCount(scouts: seq<TentScout>, start: Instant, genders: set<string>)
    requires scouts != []
    requires genders == set i | 0 <= i < |scouts| :: scouts[i].gender
    ensures |genders| > 1 <==> !SameGender(Campers(scouts, start))
  {
    var tent := Campers(scouts, start);
    assert forall i | 0 <= i < |scouts| :: tent[i].gender == scouts[i].gender;
    var g := scouts[0].gender;
    assert g in genders;
    if SameGender(tent) {
      assert genders == {g};
    } else {
      var i, j :| 0 <= i < |scouts| && 0 <= j < |scouts| && tent[i].gender != tent[j].gender;
      var two := {scouts[i].gender, scouts[j].gender};
      assert |genders - two| + |two| == |genders| by {
        assert genders == (genders - two) + two;
      }
    }
  }

  // ----- What the violation list means -----

  /** The scouts after i, up to m, that may not share a tent with scout i. */
  ghost function OffendersOfRow(tent: seq<Camper>, i: nat, m: nat, maxAgeGap: int,
                                siblings: set<ScoutPair>): set<(int, int)>
    requires i < |tent| && m <= |tent|
  {
    if m <= i + 1 then {}
    else
      OffendersOfRow(tent, i, m - 1, maxAgeGap, siblings)
      + (if MayShare(tent[i], tent[m - 1], maxAgeGap, siblings) then {} else {(i, m - 1)})
  }

  /** The pairs that break the age-gap rule and whose first scout is among the first n. */
  ghost function OffendingPairs(tent: seq<Camper>, n: nat, maxAgeGap: int, siblings: set<ScoutPair>): set<(int, int)>
    requires n <= |tent|
  {
    if n == 0 then {}
    else OffendingPairs(tent, n - 1, maxAgeGap, siblings) + OffendersOfRow(tent, n - 1, |tent|, maxAgeGap, siblings)
  }

  lemma {:induction false} RowMembers(tent: seq<Camper>, i: nat, m: nat, maxAgeGap: int, siblings: set<ScoutPair>,
                                      p: (int, int))
    requires i < |tent| && m <= |tent|
    ensures p in OffendersOfRow(tent, i, m, maxAgeGap, siblings) <==>
            p.0 == i && i < p.1 < m && !MayShare(tent[i], tent[p.1], maxAgeGap, siblings)
  {
    if m > i + 1 {
      RowMembers(tent, i, m - 1, maxAgeGap, siblings, p);
    }
  }

  /** OffendingPairs holds the pairs i < j that break the rule, and nothing else. */
  lemma {:induction false} OffendingPairsMembers(tent: seq<Camper>, n: nat, maxAgeGap: int, siblings: set<ScoutPair>,
                                                 p: (int, int))
    requires n <= |tent|
    ensures p in OffendingPairs(tent, n, maxAgeGap, siblings) <==>
            0 <= p.0 < n && p.0 < p.1 < |tent| && !MayShare(tent[p.0], tent[p.1], maxAgeGap, siblings)
  {
    if n > 0 {
      OffendingPairsMembers(tent, n - 1, maxAgeGap, siblings, p);
      RowMembers(tent, n - 1, |tent|, maxAgeGap, siblings, p);
    }
  }

  // ----- What the entries say -----

  /** The entry names the older of the two first, how many years older, the other one, and the limit. */
  ghost predicate TellsGap(v: Violation, a: Camper, b: Camper, maxAgeGap: int) {
    v.AgeGap? && v.limit == maxAgeGap
    && ((v.older == a.name && v.younger == b.name && a.age >= b.age && v.years == a.age - b.age)
        || (v.older == b.name && v.younger == a.name && b.age > a.age && v.years == b.age - a.age))
  }

  lemma GapEntryTells(a: Camper, b: Camper, maxAgeGap: int, siblings: set<ScoutPair>, v: Violation)
    ensures v in GapEntry(a, b, maxAgeGap, siblings) <==>
              !MayShare(a, b, maxAgeGap, siblings) && TellsGap(v, a, b, maxAgeGap)
  {
  }

  /** Two scouts of different places whose gap the entry tells, and who may not share. */
  ghost predicate GapOf(tent: seq<Camper>, maxAgeGap: int, siblings: set<ScoutPair>, v: Violation, i: int, j: int) {
    0 <= i < j < |tent| && !MayShare(tent[i], tent[j], maxAgeGap, siblings) && TellsGap(v, tent[i], tent[j], maxAgeGap)
  }

  lemma {:induction false} RowTells(tent: seq<Camper>, i: nat, m: nat, maxAgeGap: int, siblings: set<ScoutPair>,
                                    v: Violation)
    requires i < |tent| && m <= |tent|
    ensures v in GapsOfRow(tent, i, m, maxAgeGap, siblings) <==>
              exists j :: j < m && GapOf(tent, maxAgeGap, siblings, v, i, j)
  {
    if m > i + 1 {
      RowTells(tent, i, m - 1, maxAgeGap, siblings, v);
      GapEntryTells(tent[i], tent[m - 1], maxAgeGap, siblings, v);
      assert v in GapEntry(tent[i], tent[m - 1], maxAgeGap, siblings) <==>
             GapOf(tent, maxAgeGap, siblings, v, i, m - 1);
      if j :| j < m - 1 && GapOf(tent, maxAgeGap, siblings, v, i, j) {
        assert j < m;
      }
    }
  }

  lemma GapBounds(tent: seq<Camper>, maxAgeGap: int, siblings: set<ScoutPair>, v: Violation, i: int, j: int)
    requires GapOf(tent, maxAgeGap, siblings, v, i, j)
    ensures 0 <= i < j < |tent|
  {
  }

  lemma {:induction false} GapsTell(tent: seq<Camper>, n: nat, maxAgeGap: int, siblings: set<ScoutPair>, v: Violation)
    requires n <= |tent|
    ensures v in Gaps(tent, n, maxAgeGap, siblings) <==>
              exists i, j :: i < n && GapOf(tent, maxAgeGap, siblings, v, i, j)
  {
    hide GapOf, GapsOfRow;
    if n == 0 {
      if i, j :| i < n && GapOf(tent, maxAgeGap, siblings, v, i, j) {
        GapBounds(tent, maxAgeGap, siblings, v, i, j);
      }
    } else {
      var k := n - 1;
      GapsTell(tent, k, maxAgeGap, siblings, v);
      RowTells(tent, k, |tent|, maxAgeGap, siblings, v);
      if i, j :| i < n && GapOf(tent, maxAgeGap, siblings, v, i, j) {
        GapBounds(tent, maxAgeGap, siblings, v, i, j);
        assert i < k || (i == k && j < |tent|);
      }
      if j :| j < |tent| && GapOf(tent, maxAgeGap, siblings, v, k, j) {
        assert k < n;
      }
      if i, j :| i < k && GapOf(tent, maxAgeGap, siblings, v, i, j) {
        assert i < n;
      }
    }
  }

  /** What the list of violations says, entry by entry: a scout is alone, which is reported on demand only; the genders
      differ, with all names in their order; or two who are no siblings are too far apart in age. */
  lemma ViolationsMeaning(tent: seq<Camper>, maxAgeGap: int, siblings: set<ScoutPair>, includeAlone: bool, v: Violation)
    ensures v in Violations(tent, maxAgeGap, siblings, includeAlone) <==>
              match v
              case NeverAlone(name) => includeAlone && |tent| == 1 && name == tent[0].name
              case MixedGender(names) =>
                && (exists i, j :: 0 <= i < j < |tent| && tent[i].gender != tent[j].gender)
                && |names| == |tent| && forall i | 0 <= i < |tent| :: names[i] == tent[i].name
              case AgeGap(_, _, _, _) => exists i, j :: GapOf(tent, maxAgeGap, siblings, v, i, j)
  {
    GapsTell(tent, |tent|, maxAgeGap, siblings, v);
    if i, j :| GapOf(tent, maxAgeGap, siblings, v, i, j) {
      assert i < |tent|;
    }
    GendersDiffer(tent);
    if v.MixedGender? && |v.names| == |tent| && forall i | 0 <= i < |tent| :: v.names[i] == tent[i].name {
      assert v.names == NamesOf(tent);
    }
  }

  /** Mixed genders are reported first, and after that the pairs. */
  lemma MixedGenderFirst(tent: seq<Camper>, maxAgeGap: int, siblings: set<ScoutPair>)
    ensures var all, gaps := Violations(tent, maxAgeGap, siblings, false), Gaps(tent, |tent|, maxAgeGap, siblings);
            if SameGender(tent) then all == gaps else all != [] && all[0].MixedGender? && all[1..] == gaps
  {
    hide Gaps, NamesOf;
    var all, gaps := Violations(tent, maxAgeGap, siblings, false), Gaps(tent, |tent|, maxAgeGap, siblings);
    if SameGender(tent) {
      var none: seq<Violation> := [];
      assert all == none + gaps;
    }
  }

  /** The pairs of the first scout come before those of the second and so on, each in the order of the other scouts. */
  lemma PairsInOrder(tent: seq<Camper>, i: nat, j: nat, maxAgeGap: int, siblings: set<ScoutPair>)
    requires i < j < |tent|
    ensures Gaps(tent, i, maxAgeGap, siblings) + GapsOfRow(tent, i, |tent|, maxAgeGap, siblings)
         == Gaps(tent, i + 1, maxAgeGap, siblings)
    ensures GapsOfRow(tent, i, j, maxAgeGap, siblings) + GapEntry(tent[i], tent[j], maxAgeGap, siblings)
         == GapsOfRow(tent, i, j + 1, maxAgeGap, siblings)
  {
  }

  lemma GendersDiffer(tent: seq<Camper>)
    ensures !SameGender(tent) <==> exists i, j :: 0 <= i < j < |tent| && tent[i].gender != tent[j].gender
  {
    if i, j :| 0 <= i < |tent| && 0 <= j < |tent| && tent[i].gender != tent[j].gender {
      assert i < j || j < i;
    }
  }

  lemma RowIsNew(tent: seq<Camper>, n: nat, maxAgeGap: int, siblings: set<ScoutPair>, before: set<(int, int)>,
                 row: set<(int, int)>)
    requires 0 < n <= |tent|
    requires before == OffendingPairs(tent, n - 1, maxAgeGap, siblings)
    requires row == OffendersOfRow(tent, n - 1, |tent|, maxAgeGap, siblings)
    ensures |before + row| == |before| + |row|
  {
    forall p | p in before ensures p !in row {
      OffendingPairsMembers(tent, n - 1, maxAgeGap, siblings, p);
      RowMembers(tent, n - 1, |tent|, maxAgeGap, siblings, p);
    }
    assert before !! row;
  }

  lemma {:induction false} RowCount(tent: seq<Camper>, i: nat, m: nat, maxAgeGap: int, siblings: set<ScoutPair>)
    requires i < |tent| && m <= |tent|
    ensures |GapsOfRow(tent, i, m, maxAgeGap, siblings)| == |OffendersOfRow(tent, i, m, maxAgeGap, siblings)|
  {
    if m > i + 1 {
      RowCount(tent, i, m - 1, maxAgeGap, siblings);
      RowMembers(tent, i, m - 1, maxAgeGap, siblings, (i as int, m - 1));
    }
  }

  lemma NoRows(tent: seq<Camper>, maxAgeGap: int, siblings: set<ScoutPair>)
    ensures |Gaps(tent, 0, maxAgeGap, siblings)| == |OffendingPairs(tent, 0, maxAgeGap, siblings)| == 0
  {
  }

  lemma OneMoreRow(tent: seq<Camper>, n: nat, maxAgeGap: int, siblings: set<ScoutPair>)
    requires 0 < n <= |tent|
    ensures |Gaps(tent, n, maxAgeGap, siblings)|
         == |Gaps(tent, n - 1, maxAgeGap, siblings)| + |GapsOfRow(tent, n - 1, |tent|, maxAgeGap, siblings)|
    ensures |OffendingPairs(tent, n, maxAgeGap, siblings)|
         == |OffendingPairs(tent, n - 1, maxAgeGap, siblings)|
          + |OffendersOfRow(tent, n - 1, |tent|, maxAgeGap, siblings)|
  {
    var before := OffendingPairs(tent, n - 1, maxAgeGap, siblings);
    var row := OffendersOfRow(tent, n - 1, |tent|, maxAgeGap, siblings);
    RowIsNew(tent, n, maxAgeGap, siblings, before, row);
    assert OffendingPairs(tent, n, maxAgeGap, siblings) == before + row;
  }

  /** The age-gap entries count exactly the pairs that break the rule. */
  lemma {:induction false} GapsCountOffenders(tent: seq<Camper>, n: nat, maxAgeGap: int, siblings: set<ScoutPair>)
    requires n <= |tent|
    ensures |Gaps(tent, n, maxAgeGap, siblings)| == |OffendingPairs(tent, n, maxAgeGap, siblings)|
  {
    hide Gaps, GapsOfRow, OffendingPairs, OffendersOfRow;
    if n == 0 {
      NoRows(tent, maxAgeGap, siblings);
    } else {
      GapsCountOffenders(tent, n - 1, maxAgeGap, siblings);
      RowCount(tent, n - 1, |tent|, maxAgeGap, siblings);
      OneMoreRow(tent, n, maxAgeGap, siblings);
    }
  }

  /** A tent has no blocking violation exactly when it is legal. */
  lemma BlockingEmptyIffLegal(tent: seq<Camper>, maxAgeGap: int, siblings: set<ScoutPair>)
    ensures Blocking(tent, maxAgeGap, siblings) == [] <==> Legal(tent, maxAgeGap, siblings)
  {
    GapsCountOffenders(tent, |tent|, maxAgeGap, siblings);
    var bad := OffendingPairs(tent, |tent|, maxAgeGap, siblings);
    forall i, j | 0 <= i < j < |tent|
      ensures bad == {} ==> MayShare(tent[i], tent[j], maxAgeGap, siblings)
    {
      OffendingPairsMembers(tent, |tent|, maxAgeGap, siblings, (i, j));
    }
    if bad != {} {
      var p :| p in bad;
      OffendingPairsMembers(tent, |tent|, maxAgeGap, siblings, p);
    }
  }

  /** A value occurring twice occupies two positions. */
  lemma {:induction false} TwoPositions(s: seq<Camper>, x: Camper) returns (i: int, j: int)
    requires multiset(s)[x] >= 2
    ensures 0 <= i < j < |s| && s[i] == x && s[j] == x
  {
    var n := |s| - 1;
    assert s == s[..n] + [s[n]];
    if s[n] == x {
      assert multiset(s[..n])[x] >= 1;
      assert x in s[..n];
      i :| 0 <= i < n && s[i] == x;
      j := n;
    } else {
      i, j := TwoPositions(s[..n], x);
    }
  }

  lemma PartMayShare(tent: seq<Camper>, part: seq<Camper>, maxAgeGap: int, siblings: set<ScoutPair>, i: nat, j: nat)
    requires Legal(tent, maxAgeGap, siblings) && multiset(part) <= multiset(tent) && i < j < |part|
    ensures MayShare(part[i], part[j], maxAgeGap, siblings)
  {
    var x, y := part[i], part[j];
    assert x in multiset(part) && y in multiset(part);
    if x == y {
      assert part == part[..j] + [part[j]] + part[j + 1..];
      assert x in part[..j];
      var a, b := TwoPositions(tent, x);
    } else {
      var a :| 0 <= a < |tent| && tent[a] == x;
      var b :| 0 <= b < |tent| && tent[b] == y;
      assert a < b || b < a;
    }
  }

  /** Legality is hereditary and independent of order: any part of a legal tent, in any order, is legal. */
  lemma LegalHereditary(tent: seq<Camper>, part: seq<Camper>, maxAgeGap: int, siblings: set<ScoutPair>)
    requires Legal(tent, maxAgeGap, siblings)
    requires multiset(part) <= multiset(tent)
    ensures Legal(part, maxAgeGap, siblings)
  {
    forall i | 0 <= i < |part| ensures part[i] in tent {
      assert part[i] in multiset(part);
    }
    forall i, j | 0 <= i < j < |part| ensures MayShare(part[i], part[j], maxAgeGap, siblings) {
      PartMayShare(tent, part, maxAgeGap, siblings, i, j);
    }
  }

  /** A wider age limit and more siblings keep a legal tent legal. */
  lemma LegalMonotone(tent: seq<Camper>, gap: int, gap': int, siblings: set<ScoutPair>, siblings': set<ScoutPair>)
    requires Legal(tent, gap, siblings)
    requires gap <= gap' && siblings <= siblings'
    ensures Legal(tent, gap', siblings')
  {
  }
}
