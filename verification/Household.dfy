/** The household's entities, with their display strings left out. */
module Household {
  import opened Base

  datatype Role = Head | Dependent | ThirdParty

  datatype Availability = Available | Busy | Travel

  datatype Urgency = Low | Med | High | Critical

  datatype Category = Maintenance | School | Errand | Admin | Event | Seasonal | Wellness | Logistics

  /** A calendar date in UTC, as read off an instant or a birth date. */
  datatype Date = Date(year: int, month: int, day: int)

  datatype Member = Member(
    id: Id,
    household: Id,
    role: Role,
    birthDate: Option<Date>,
    skills: seq<string>,
    drives: bool,
    commuteMinutes: Option<nat>,
    availability: Availability,
    active: bool)

  ghost predicate DistinctIds(members: seq<Member>) {
    forall i, j :: 0 <= i < j < |members| ==> members[i].id != members[j].id
  }

  lemma DistinctIdsPermuted(s: seq<Member>, t: seq<Member>)
    requires multiset(s) == multiset(t) && DistinctIds(s)
    ensures forall m, m' :: m in t && m' in t && m.id == m'.id ==> m == m'
  {
    forall m, m' | m in t && m' in t && m.id == m'.id ensures m == m' {
      assert m in multiset(s) && m' in multiset(s);
    }
  }

  /** Whole-year age on `today`, never negative; unknown without a birth date. */
  function ComputeAge(birthDate: Option<Date>, today: Date): Option<nat> {
    match birthDate
    case None => None
    case Some(born) =>
      var years := today.year - born.year;
      var monthDelta := today.month - born.month;
      var beforeBirthday := monthDelta < 0 || (monthDelta == 0 && today.day < born.day);
      Some(Max(0, if beforeBirthday then years - 1 else years))
  }

  /** The birthday number `n` is `today` or earlier. */
  predicate Reached(born: Date, n: int, today: Date) {
    || born.year + n < today.year
    || (born.year + n == today.year && born.month < today.month)
    || (born.year + n == today.year && born.month == today.month && born.day <= today.day)
  }

  /** An age of at least `n` is birthday number `n` reached; everybody, even the unborn, is at least 0. */
  lemma AgeCountsBirthdays(born: Date, today: Date, n: nat)
    ensures ComputeAge(Some(born), today).value >= n <==> n == 0 || Reached(born, n, today)
  {
  }
}
