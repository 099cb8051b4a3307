/**
 * People: the identity record shared by students and staff, the age rule and
 * the responsibility lists that the person variants extend.
 */
module People {

  /** A calendar date as (year, month, day), compared lexicographically. */
  datatype Date = Date(year: int, month: int, day: int)

  /** True when the (month, day) part of `a` comes strictly before that of `b`. */
  predicate MonthDayBefore(a: Date, b: Date) {
    a.month < b.month || (a.month == b.month && a.day < b.day)
  }

  /** Lexicographic order on (year, month, day): `a` is not later than `b`. */
  predicate OnOrBefore(a: Date, b: Date) {
    a.year < b.year || (a.year == b.year && !MonthDayBefore(b, a))
  }

  /** The `n`-th anniversary of `birth`: the same month and day, `n` years later. */
  function Anniversary(birth: Date, n: int): Date {
    Date(birth.year + n, birth.month, birth.day)
  }

  /** The single responsibility every person has. */
  const PolicyDuty := "Adhere to university policies."

  /** A person of the university: identifier, name and date of birth. */
  datatype Person = Person(personId: string, name: string, birthDate: Date)
  {
    /**
     * Age in whole years on the day `today`: the year difference, less one
     * while this year's birthday is still ahead. The result is the number of
     * anniversaries of the birth date that fall on or before `today`.
     */
    function Age(today: Date): (age: int)
      ensures OnOrBefore(Anniversary(birthDate, age), today)
      ensures !OnOrBefore(Anniversary(birthDate, age + 1), today)
    {
      today.year - birthDate.year - (if MonthDayBefore(today, birthDate) then 1 else 0)
    }

    /** The base responsibility list, which every variant extends. */
    function Responsibilities(): (duties: seq<string>)
      ensures duties == [PolicyDuty]
    {
      [PolicyDuty]
    }

    /** The display form "name (ID: id)", from which both parts can be read back. */
    function ToString(): (s: string)
      ensures |s| == |name| + |personId| + 7
      ensures s[..|name|] == name
      ensures s[|name|..|name| + 6] == " (ID: "
      ensures s[|name| + 6..|s| - 1] == personId
      ensures s[|s| - 1] == ')'
    {
      name + " (ID: " + personId + ")"
    }
  }

  /**
   * The anniversary rule determines the age: any `n` whose anniversary has
   * passed by `today` while the next one has not is the age.
   */
  lemma AgeUnique(p: Person, today: Date, n: int)
    requires OnOrBefore(Anniversary(p.birthDate, n), today)
    requires !OnOrBefore(Anniversary(p.birthDate, n + 1), today)
    ensures n == p.Age(today)
  {
  }

  /** On the birthday itself and on any later day of the year the age is the plain year difference. */
  lemma AgeOnOrAfterBirthday(p: Person, today: Date)
    requires !MonthDayBefore(today, p.birthDate)
    ensures p.Age(today) == today.year - p.birthDate.year
  {
  }

  /** Before this year's birthday the age is one less than the year difference. */
  lemma AgeBeforeBirthday(p: Person, today: Date)
    requires MonthDayBefore(today, p.birthDate)
    ensures p.Age(today) == today.year - p.birthDate.year - 1
  {
  }

  /** On 1 January 2024 both a March and a June 1990 birthday are still ahead: age 33. */
  lemma AgeExamples()
    ensures Person("P002", "Jane Smith", Date(1990, 3, 15)).Age(Date(2024, 1, 1)) == 33
    ensures Person("P003", "Bob Johnson", Date(1990, 6, 15)).Age(Date(2024, 1, 1)) == 33
    ensures Person("P004", "Ann Lee", Date(1990, 1, 1)).Age(Date(2024, 1, 1)) == 34
  {
  }

  /** A non-academic staff member with a department and a role. */
  datatype Staff = Staff(person: Person, department: string, role: string)
  {
    /** The base list followed by exactly one role-specific duty. */
    function Responsibilities(): (duties: seq<string>)
      ensures |duties| == |person.Responsibilities()| + 1
      ensures duties[..|duties| - 1] == person.Responsibilities()
      ensures duties[|duties| - 1] == "Perform " + role + " duties for the " + department + " department."
    {
      person.Responsibilities() + ["Perform " + role + " duties for the " + department + " department."]
    }
  }
}
