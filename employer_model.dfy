/** Employees (backend/models/employerModel.js): the job category
    enumeration, the required fields and the age the pre-save hook
    recomputes from the birth date and the day of the save. */
module EmployerModel {
  import opened Common

  datatype JobCategory = Boulanger | Patissier | Plongeur | Vendeur | Manager

  function CategoryName(c: JobCategory): string {
    match c
    case Boulanger => "Boulanger"
    case Patissier => "Pâtissier"
    case Plongeur => "Plongeur"
    case Vendeur => "Vendeur"
    case Manager => "Manager"
  }

  /** The enum validator: a string is accepted exactly when it names one of
      the five categories. */
  function ParseCategory(s: string): (r: Option<JobCategory>)
    ensures r.Some? ==> CategoryName(r.value) == s
    ensures r.None? ==> forall c: JobCategory :: CategoryName(c) != s
  {
    if s == "Boulanger" then Some(Boulanger)
    else if s == "Pâtissier" then Some(Patissier)
    else if s == "Plongeur" then Some(Plongeur)
    else if s == "Vendeur" then Some(Vendeur)
    else if s == "Manager" then Some(Manager)
    else None
  }

  lemma CategoryNameParses(c: JobCategory)
    ensures ParseCategory(CategoryName(c)) == Some(c)
  {
  }

  /** A calendar day as `getFullYear`, `getMonth` (0 to 11) and `getDate`
      give it. */
  datatype Day = Day(year: int, month: int, date: int)

  /** `a` is the same day as `b` or an earlier one. */
  predicate OnOrBefore(a: Day, b: Day) {
    a.year < b.year || (a.year == b.year && (a.month < b.month || (a.month == b.month && a.date <= b.date)))
  }

  /** The `n`-th anniversary of `birth`. */
  function Anniversary(birth: Day, n: int): Day {
    Day(birth.year + n, birth.month, birth.date)
  }

  /** The pre-save hook's age: the difference of the years, less one when
      this year's birthday is still to come.  It is the number of
      anniversaries reached: the `age`-th is on or before today, the next
      one is after it. */
  function Age(today: Day, birth: Day): (age: int)
    ensures OnOrBefore(Anniversary(birth, age), today)
    ensures !OnOrBefore(Anniversary(birth, age + 1), today)
  {
    var age := today.year - birth.year;
    var monthDiff := today.month - birth.month;
    if monthDiff < 0 || (monthDiff == 0 && today.date < birth.date) then age - 1 else age
  }

  /** On the birthday itself the age is the difference of the years. */
  lemma AgeOnBirthday(birth: Day, n: int)
    ensures Age(Anniversary(birth, n), birth) == n
  {
  }

  /** The day before a birthday in the same month, the birthday has not yet
      counted. */
  lemma AgeDayBefore(birth: Day, n: int)
    requires birth.date > 1
    ensures Age(Day(birth.year + n, birth.month, birth.date - 1), birth) == n - 1
  {
  }

  /** An anniversary reached by day `t` comes before one not yet reached. */
  lemma AnniversariesInOrder(birth: Day, m: int, n: int, t: Day)
    requires OnOrBefore(Anniversary(birth, m), t) && !OnOrBefore(Anniversary(birth, n), t)
    ensures m < n
  {
  }

  /** The age never goes down as time goes on. */
  lemma AgeMonotone(t1: Day, t2: Day, birth: Day)
    requires OnOrBefore(t1, t2)
    ensures Age(t1, birth) <= Age(t2, birth)
  {
    AnniversariesInOrder(birth, Age(t1, birth), Age(t2, birth) + 1, t2);
  }

  /** An employee document.  `age` is absent until the first save. */
  class Employer {
    var fullName: string
    var cin: string
    var birthDate: Option<Day>
    var age: Option<int>
    var jobCategory: string
    var weeklySalary: Option<int>

    /** The schema's validators: the required fields are present and the
        category is one of the five. */
    predicate SchemaValid()
      reads this
    {
      && fullName != "" && cin != "" && birthDate.Some? && weeklySalary.Some?
      && ParseCategory(jobCategory).Some?
    }

    constructor (fullName: string, cin: string, birthDate: Option<Day>, jobCategory: string, weeklySalary: Option<int>)
      ensures this.fullName == fullName && this.cin == cin && this.birthDate == birthDate
      ensures this.jobCategory == jobCategory && this.weeklySalary == weeklySalary
      ensures age.None?
    {
      this.fullName := fullName;
      this.cin := cin;
      this.birthDate := birthDate;
      this.jobCategory := jobCategory;
      this.weeklySalary := weeklySalary;
      age := None;
    }

    /** `save()` on `today`: validation first, then the hook, which sets the
        age afresh from the birth date whatever it was before.  A failed
        save changes nothing. */
    method Save(today: Day) returns (err: Option<string>)
      modifies this
      ensures err.None? <==> old(SchemaValid())
      ensures err.Some? ==> unchanged(this)
      ensures err.None? ==> birthDate.Some? && age == Some(Age(today, birthDate.value))
      ensures fullName == old(fullName) && cin == old(cin) && birthDate == old(birthDate)
      ensures jobCategory == old(jobCategory) && weeklySalary == old(weeklySalary)
    {
      if !SchemaValid() {
        return Some("Validation failed");
      }
      age := Some(Age(today, birthDate.value));
      err := None;
    }
  }
}
