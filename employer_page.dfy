/** The staff page of the shop front (frontend/src/pages/employer.jsx):
    three tables (articles bought, salary advances, absences), rows that are
    saved read-only and edited or deleted behind the code "2345", the
    advance left to an employee for the week and the absence day counts.
    Row ids (`Date.now()`) and dates are parameters; dates are millisecond
    time stamps. */
module EmployerPage {
  import opened Common
  import Seqs

  const SECURITY_CODE: string := "2345"
  const DAY_MS: nat := 1000 * 60 * 60 * 24
  const WRONG_CODE_MESSAGE: string := "الكود غير صحيح. يرجى المحاولة مرة أخرى."

  /** `parseFloat(x) || 0` on a form field. */
  function ValueOr0(x: FormNumber): int {
    if x.Number? then x.value else 0
  }

  /** The fields of a row of each table; an empty date field is `None`. */
  datatype Fields =
    | ArticleFields(name: string, price: FormNumber)
    | AdvanceFields(name: string, advance: FormNumber, salary: int, remaining: int)
    | AbsenceFields(name: string, startDate: Option<int>, endDate: Option<int>, days: int, reason: string)

  datatype Row = Row(id: int, fields: Fields, isSaved: bool)

  datatype Table = Articles | Advances | Absences

  predicate OfTable(r: Row, t: Table) {
    match t
    case Articles => r.fields.ArticleFields?
    case Advances => r.fields.AdvanceFields?
    case Absences => r.fields.AbsenceFields?
  }

  /** The row `addXRow`, `clearX` and an emptied table start with. */
  function BlankRow(t: Table, id: int): (r: Row)
    ensures OfTable(r, t) && r.id == id && !r.isSaved
  {
    match t
    case Articles => Row(id, ArticleFields("", Absent), false)
    case Advances => Row(id, AdvanceFields("", Absent, 0, 0), false)
    case Absences => Row(id, AbsenceFields("", None, None, 0, ""), false)
  }

  /** `rows.map(r => r.id === item.id ? {...item, isSaved: saved} : r)`,
      the body of `saveItem` and `editItem`. */
  function SetSaved(rows: seq<Row>, item: Row, saved: bool): (r: seq<Row>)
    ensures |r| == |rows|
    ensures forall i :: 0 <= i < |rows| && rows[i].id != item.id ==> r[i] == rows[i]
    ensures forall i :: 0 <= i < |rows| && rows[i].id == item.id ==> r[i] == item.(isSaved := saved)
  {
    seq(|rows|, i requires 0 <= i < |rows| => if rows[i].id == item.id then item.(isSaved := saved) else rows[i])
  }

  /** Saving a row twice is saving it once. */
  lemma SaveIdempotent(rows: seq<Row>, item: Row)
    ensures SetSaved(SetSaved(rows, item, true), item, true) == SetSaved(rows, item, true)
  {
  }

  /** Editing a row just saved gives back the editable rows. */
  lemma EditUndoesSave(rows: seq<Row>, item: Row)
    requires forall i :: 0 <= i < |rows| && rows[i].id == item.id ==> rows[i] == item.(isSaved := false)
    ensures SetSaved(SetSaved(rows, item, true), item, false) == rows
  {
  }

  /** `rows.filter(r => r.id !== id)` */
  function WithoutId(rows: seq<Row>, id: int): (r: seq<Row>)
    ensures |r| <= |rows|
    ensures forall x :: x in r <==> x in rows && x.id != id
  {
    if rows == [] then []
    else (if rows[0].id == id then [] else [rows[0]]) + WithoutId(rows[1..], id)
  }

  /** deleteItem on one table: the rows with the item's id go, and a table
      left empty gets one blank row. */
  function DeleteRows(rows: seq<Row>, id: int, t: Table, newId: int): (r: seq<Row>)
    ensures r != []
    ensures WithoutId(rows, id) != [] ==> r == WithoutId(rows, id)
    ensures WithoutId(rows, id) == [] ==> r == [BlankRow(t, newId)]
    ensures forall x :: x in r && x.id == id ==> x == BlankRow(t, newId)
  {
    var kept := WithoutId(rows, id);
    if |kept| > 0 then kept else [BlankRow(t, newId)]
  }

  /** The table holds only rows of its own kind. */
  predicate AllOfTable(rows: seq<Row>, t: Table) {
    forall i :: 0 <= i < |rows| ==> OfTable(rows[i], t)
  }

  lemma {:induction false} WithoutIdOfTable(rows: seq<Row>, id: int, t: Table)
    requires AllOfTable(rows, t)
    ensures AllOfTable(WithoutId(rows, id), t)
  {
    var r := WithoutId(rows, id);
    forall i | 0 <= i < |r| ensures OfTable(r[i], t) {
      assert r[i] in r;
      var j :| 0 <= j < |rows| && rows[j] == r[i];
    }
  }

  lemma SetSavedOfTable(rows: seq<Row>, item: Row, saved: bool, t: Table)
    requires AllOfTable(rows, t) && OfTable(item, t)
    ensures AllOfTable(SetSaved(rows, item, saved), t)
  {
  }

  /** The articles total: `Σ (parseFloat(price) || 0)`. */
  function ArticlesTotal(rows: seq<Row>): int {
    if rows == [] then 0
    else (if rows[0].fields.ArticleFields? then ValueOr0(rows[0].fields.price) else 0) + ArticlesTotal(rows[1..])
  }

  /** Adding the rows of one list to those of another adds the totals. */
  lemma {:induction false} ArticlesTotalAppend(a: seq<Row>, b: seq<Row>)
    ensures ArticlesTotal(a + b) == ArticlesTotal(a) + ArticlesTotal(b)
  {
    if a == [] {
      assert a + b == b;
    } else {
      assert (a + b)[1..] == a[1..] + b;
      ArticlesTotalAppend(a[1..], b);
    }
  }

  /** A blank row adds nothing to the total. */
  lemma AddArticleRowKeepsTotal(rows: seq<Row>, id: int)
    ensures ArticlesTotal(rows + [BlankRow(Articles, id)]) == ArticlesTotal(rows)
  {
    ArticlesTotalAppend(rows, [BlankRow(Articles, id)]);
  }

  /** Whose advance a row is, and how much (`parseFloat(advance) || 0`). */
  function AdvanceOf(r: Row, name: string): int {
    if r.fields.AdvanceFields? && r.fields.name == name then ValueOr0(r.fields.advance) else 0
  }

  /** What an employee has taken this week: the advances of the rows with
      that name. */
  function TakenBy(rows: seq<Row>, name: string): int {
    if rows == [] then 0 else AdvanceOf(rows[0], name) + TakenBy(rows[1..], name)
  }

  /** The name branch's sum: only rows with a truthy advance are kept
      before adding. */
  function TakenTruthy(rows: seq<Row>, name: string): int {
    if rows == [] then 0
    else
      (if rows[0].fields.AdvanceFields? && rows[0].fields.name == name && !rows[0].fields.advance.Absent?
       then ValueOr0(rows[0].fields.advance) else 0)
      + TakenTruthy(rows[1..], name)
  }

  /** Leaving out the empty advances does not change the sum. */
  lemma {:induction false} TakenTruthyIsTakenBy(rows: seq<Row>, name: string)
    ensures TakenTruthy(rows, name) == TakenBy(rows, name)
  {
    if rows != [] {
      TakenTruthyIsTakenBy(rows[1..], name);
    }
  }

  /** TakenBy with row `index` replaced. */
  lemma {:induction false} TakenByUpdate(rows: seq<Row>, index: nat, r: Row, name: string)
    requires index < |rows|
    ensures TakenBy(rows[index := r], name) == TakenBy(rows, name) - AdvanceOf(rows[index], name) + AdvanceOf(r, name)
  {
    if index > 0 {
      TakenByUpdate(rows[1..], index - 1, r, name);
      assert rows[index := r][1..] == rows[1..][index - 1 := r];
    }
  }

  /** The rows with the given name, in order: the `filter` before the
      `reduce` in the advance branch. */
  function Named(rows: seq<Row>, name: string): (r: seq<Row>)
    ensures |r| <= |rows|
    ensures forall x :: x in r <==> x in rows && x.fields.AdvanceFields? && x.fields.name == name
    ensures Seqs.IsSubsequence(r, rows)
  {
    if rows == [] then []
    else if rows[0].fields.AdvanceFields? && rows[0].fields.name == name then
      var r := [rows[0]] + Named(rows[1..], name);
      assert r[0] == rows[0] && r[1..] == Named(rows[1..], name);
      r
    else Named(rows[1..], name)
  }

  /** The advance branch's `reduce` as written: position `k` of the
      filtered list is compared with `index`, a position in the whole
      table, and where they agree the new value is counted instead of that
      row's own advance. */
  function TakenAsWrittenFrom(named: seq<Row>, k: nat, index: nat, value: FormNumber): int
    decreases |named|
  {
    if named == [] then 0
    else
      (if k == index then ValueOr0(value)
       else if named[0].fields.AdvanceFields? then ValueOr0(named[0].fields.advance) else 0)
      + TakenAsWrittenFrom(named[1..], k + 1, index, value)
  }

  function TakenAsWritten(rows: seq<Row>, name: string, index: nat, value: FormNumber): int {
    TakenAsWrittenFrom(Named(rows, name), 0, index, value)
  }

  /** The table the finding is about: employee "B" first, then two advances
      of employee "A" of 10 and 20.  Typing 7 into the first of A's rows
      (position 1 of the table) gives A's rows as 7 and 20, 27 in all; the
      code as written counts 7 twice, since A's second row sits at
      position 1 of the filtered list. */
  lemma AsWrittenMiscounts()
    ensures var rows := [
        Row(1, AdvanceFields("B", Number(5), 0, 0), false),
        Row(2, AdvanceFields("A", Number(7), 0, 0), false),
        Row(3, AdvanceFields("A", Number(20), 0, 0), false)];
      TakenAsWritten(rows, "A", 1, Number(7)) == 14 && TakenBy(rows, "A") == 27
  {
    var rows := [
        Row(1, AdvanceFields("B", Number(5), 0, 0), false),
        Row(2, AdvanceFields("A", Number(7), 0, 0), false),
        Row(3, AdvanceFields("A", Number(20), 0, 0), false)];
    assert rows[1..][1..] == [rows[2]];
    assert Named(rows, "A") == [rows[1], rows[2]];
  }

  /** `Math.ceil(n / d)` for a non-negative `n`. */
  function CeilDiv(n: nat, d: nat): (q: nat)
    requires d > 0
    ensures (q - 1) * d < n <= q * d || (n == 0 && q == 0)
  {
    (n + d - 1) / d
  }

  function Abs(x: int): nat {
    if x < 0 then -x else x
  }

  /** The absence day count: whole days between the two dates, any part of
      a day counting as one, both ends included. */
  function AbsenceDays(start: int, end: int): (days: nat)
    ensures days >= 1
    ensures days == 1 <==> start == end
    ensures days > 1 ==> (days - 2) * DAY_MS < Abs(end - start) <= (days - 1) * DAY_MS
  {
    CeilDiv(Abs(end - start), DAY_MS) + 1
  }

  /** The count does not depend on which date is entered first. */
  lemma AbsenceDaysSymmetric(start: int, end: int)
    ensures AbsenceDays(start, end) == AbsenceDays(end, start)
  {
  }

  /** `k` whole days apart is `k + 1` days of absence; the same day is one. */
  lemma AbsenceDaysWholeDays(start: int, k: nat)
    ensures AbsenceDays(start, start + k * DAY_MS) == k + 1
  {
    assert Abs(start + k * DAY_MS - start) == k * DAY_MS;
    assert (k * DAY_MS + DAY_MS - 1) / DAY_MS == k by {
      assert k * DAY_MS + DAY_MS - 1 == k * DAY_MS + (DAY_MS - 1);
    }
  }

  /** getTotalAbsenceDays: the positive day counts of the rows with the
      name. */
  function TotalAbsenceDays(rows: seq<Row>, name: string): int {
    if rows == [] then 0
    else
      (if rows[0].fields.AbsenceFields? && rows[0].fields.name == name && rows[0].fields.days > 0
       then rows[0].fields.days else 0)
      + TotalAbsenceDays(rows[1..], name)
  }

  /** The total is never negative, and never more than the sum of every
      positive count in the table. */
  lemma {:induction false} TotalAbsenceDaysBounds(rows: seq<Row>, name: string, other: string)
    requires other != name
    ensures 0 <= TotalAbsenceDays(rows, name)
    ensures TotalAbsenceDays(rows, name) + TotalAbsenceDays(rows, other) <= PositiveDays(rows)
  {
    if rows != [] {
      TotalAbsenceDaysBounds(rows[1..], name, other);
    }
  }

  function PositiveDays(rows: seq<Row>): int {
    if rows == [] then 0
    else
      (if rows[0].fields.AbsenceFields? && rows[0].fields.days > 0 then rows[0].fields.days else 0)
      + PositiveDays(rows[1..])
  }

  /** An employee as the employee list gives it. */
  datatype Employee = Employee(fullName: string, weeklySalary: int)

  /** `employers.find(e => e.fullName === name)` */
  function FindEmployee(employees: seq<Employee>, name: string): (r: Option<Employee>)
    ensures r.Some? ==> r.value in employees && r.value.fullName == name
    ensures r.None? ==> forall i :: 0 <= i < |employees| ==> employees[i].fullName != name
  {
    if employees == [] then None
    else if employees[0].fullName == name then Some(employees[0])
    else FindEmployee(employees[1..], name)
  }

  /** What a confirmed delete runs: `deleteItem`, or the table's `clearX`. */
  datatype DeleteKind = DeleteRow | ClearTable

  /** A field edit of the advances table. */
  datatype AdvanceEdit = SetAdvanceName(name: string) | SetAdvanceAmount(advance: FormNumber)

  /** A field edit of the absences table: the page's inputs are the name
      and the two dates (the reason has no input). */
  datatype AbsenceEdit =
    | SetAbsenceName(name: string)
    | SetStartDate(startDate: Option<int>)
    | SetEndDate(endDate: Option<int>)

  class Page {
    var articles: seq<Row>
    var advances: seq<Row>
    var absences: seq<Row>
    var securityCode: string
    var errorMessage: string
    var showDeleteModal: bool
    var showEditModal: bool
    var deleteAction: Option<DeleteKind>
    var editingItem: Option<Row>
    var editingTable: Option<Table>

    function Rows(t: Table): seq<Row>
      reads this
    {
      match t
      case Articles => articles
      case Advances => advances
      case Absences => absences
    }

    /** Each table holds rows of its kind, and the row waiting for a
        confirmation belongs to the table named with it. */
    predicate Valid()
      reads this
    {
      && AllOfTable(articles, Articles) && AllOfTable(advances, Advances) && AllOfTable(absences, Absences)
      && (editingItem.Some? && editingTable.Some? ==> OfTable(editingItem.value, editingTable.value))
    }

    /** The page as it opens: one blank row per table. */
    constructor (now: int)
      ensures Valid()
      ensures articles == [BlankRow(Articles, now)] && advances == [BlankRow(Advances, now)]
      ensures absences == [BlankRow(Absences, now)]
      ensures securityCode == "" && errorMessage == "" && !showDeleteModal && !showEditModal
      ensures deleteAction.None? && editingItem.None? && editingTable.None?
    {
      articles := [BlankRow(Articles, now)];
      advances := [BlankRow(Advances, now)];
      absences := [BlankRow(Absences, now)];
      securityCode := "";
      errorMessage := "";
      showDeleteModal := false;
      showEditModal := false;
      deleteAction := None;
      editingItem := None;
      editingTable := None;
    }

    /** confirmDelete: remember the action, the row and its table, open the
        modal and clear the code and the error. */
    method ConfirmDelete(action: DeleteKind, item: Option<Row>, t: Table)
      requires Valid()
      requires item.Some? ==> OfTable(item.value, t)
      modifies this
      ensures Valid()
      ensures deleteAction == Some(action) && editingItem == item && editingTable == Some(t)
      ensures showDeleteModal && securityCode == "" && errorMessage == ""
      ensures articles == old(articles) && advances == old(advances) && absences == old(absences)
      ensures showEditModal == old(showEditModal)
    {
      deleteAction := Some(action);
      editingItem := item;
      editingTable := Some(t);
      showDeleteModal := true;
      securityCode := "";
      errorMessage := "";
    }

    /** confirmEdit: the same for `editItem`. */
    method ConfirmEdit(item: Row, t: Table)
      requires Valid() && OfTable(item, t)
      modifies this
      ensures Valid()
      ensures editingItem == Some(item) && editingTable == Some(t)
      ensures showEditModal && securityCode == "" && errorMessage == ""
      ensures articles == old(articles) && advances == old(advances) && absences == old(absences)
      ensures showDeleteModal == old(showDeleteModal) && deleteAction == old(deleteAction)
    {
      editingItem := Some(item);
      editingTable := Some(t);
      showEditModal := true;
      securityCode := "";
      errorMessage := "";
    }

    /** Replace one table. */
    method SetRows(t: Table, rows: seq<Row>)
      requires Valid() && AllOfTable(rows, t)
      modifies this
      ensures Valid()
      ensures Rows(t) == rows
      ensures forall u :: u != t ==> Rows(u) == old(Rows(u))
      ensures securityCode == old(securityCode) && errorMessage == old(errorMessage)
      ensures showDeleteModal == old(showDeleteModal) && showEditModal == old(showEditModal)
      ensures deleteAction == old(deleteAction) && editingItem == old(editingItem)
      ensures editingTable == old(editingTable)
    {
      match t {
        case Articles => articles := rows;
        case Advances => advances := rows;
        case Absences => absences := rows;
      }
    }

    /** executeAction: with the code "2345" the pending delete (or edit)
        runs on the remembered row and table, the modal closes and the code,
        row and table are cleared; with any other code only the error
        message is set.  `now` is the id of a blank row, if one is needed. */
    method ExecuteAction(isDelete: bool, now: int)
      requires Valid()
      requires securityCode == SECURITY_CODE && isDelete ==> deleteAction.Some?
      requires securityCode == SECURITY_CODE && editingTable.Some? && (!isDelete || deleteAction == Some(DeleteRow))
        ==> editingItem.Some?
      modifies this
      ensures Valid()
      ensures old(securityCode) != SECURITY_CODE ==>
        && errorMessage == WRONG_CODE_MESSAGE
        && articles == old(articles) && advances == old(advances) && absences == old(absences)
        && securityCode == old(securityCode) && showDeleteModal == old(showDeleteModal)
        && showEditModal == old(showEditModal) && editingItem == old(editingItem)
        && editingTable == old(editingTable)
      ensures old(securityCode) == SECURITY_CODE ==>
        && securityCode == "" && editingItem.None? && editingTable.None?
        && errorMessage == old(errorMessage)
        && (isDelete ==> !showDeleteModal && showEditModal == old(showEditModal))
        && (!isDelete ==> !showEditModal && showDeleteModal == old(showDeleteModal))
      ensures old(securityCode) == SECURITY_CODE && old(editingTable).Some? ==>
        var t := old(editingTable).value;
        && (forall u :: u != t ==> Rows(u) == old(Rows(u)))
        && (isDelete && old(deleteAction) == Some(DeleteRow) ==>
              Rows(t) == DeleteRows(old(Rows(t)), old(editingItem).value.id, t, now))
        && (isDelete && old(deleteAction) == Some(ClearTable) ==> Rows(t) == [BlankRow(t, now)])
        && (!isDelete ==> Rows(t) == SetSaved(old(Rows(t)), old(editingItem).value, false))
      ensures old(securityCode) == SECURITY_CODE && old(editingTable).None? ==>
        articles == old(articles) && advances == old(advances) && absences == old(absences)
      ensures deleteAction == old(deleteAction)
    {
      if securityCode != SECURITY_CODE {
        errorMessage := WRONG_CODE_MESSAGE;
        return;
      }
      if editingTable.Some? {
        var t := editingTable.value;
        if isDelete && deleteAction.value == ClearTable {
          SetRows(t, [BlankRow(t, now)]);
        } else if isDelete {
          var item := editingItem.value;
          WithoutIdOfTable(Rows(t), item.id, t);
          SetRows(t, DeleteRows(Rows(t), item.id, t, now));
        } else {
          var item := editingItem.value;
          SetSavedOfTable(Rows(t), item, false, t);
          SetRows(t, SetSaved(Rows(t), item, false));
        }
      }
      if isDelete {
        showDeleteModal := false;
      } else {
        showEditModal := false;
      }
      securityCode := "";
      editingItem := None;
      editingTable := None;
    }

    /** saveItem: the row with the item's id becomes read-only; no code is
        asked for. */
    method SaveItem(item: Row, t: Table)
      requires Valid() && OfTable(item, t)
      modifies this
      ensures Valid()
      ensures Rows(t) == SetSaved(old(Rows(t)), item, true)
      ensures forall u :: u != t ==> Rows(u) == old(Rows(u))
      ensures securityCode == old(securityCode) && editingItem == old(editingItem)
      ensures editingTable == old(editingTable)
    {
      SetSavedOfTable(Rows(t), item, true, t);
      SetRows(t, SetSaved(Rows(t), item, true));
    }

    /** addArticleRow, addAdvanceRow, addAbsenceRow: a blank row stamped
        `now` goes at the end of the table. */
    method AddRow(t: Table, now: int)
      requires Valid()
      modifies this
      ensures Valid()
      ensures Rows(t) == old(Rows(t)) + [BlankRow(t, now)]
      ensures forall u :: u != t ==> Rows(u) == old(Rows(u))
      ensures securityCode == old(securityCode) && editingItem == old(editingItem)
      ensures editingTable == old(editingTable)
    {
      SetRows(t, Rows(t) + [BlankRow(t, now)]);
    }

    /** handleAdvanceChange: the field is set on row `index`.  A name that
        is an employee's sets the row's salary to the weekly salary and its
        remaining to that salary less what the employee has taken.  An
        amount on a named row recomputes the same remaining when the name is
        an employee's (the sum is taken over every row of the employee, with
        the new amount in row `index`; see AsWrittenMiscounts). */
    method ChangeAdvance(index: nat, edit: AdvanceEdit, employees: seq<Employee>)
      requires Valid() && index < |advances|
      modifies this
      ensures Valid()
      ensures |advances| == |old(advances)|
      ensures forall i :: 0 <= i < |advances| && i != index ==> advances[i] == old(advances[i])
      ensures advances[index].id == old(advances[index].id) && advances[index].isSaved == old(advances[index].isSaved)
      ensures var f := advances[index].fields;
        var name := f.name;
        var emp := FindEmployee(employees, name);
        && (edit.SetAdvanceName? ==> name == edit.name && f.advance == old(advances[index].fields.advance))
        && (edit.SetAdvanceAmount? ==> f.advance == edit.advance && name == old(advances[index].fields.name))
        && (emp.Some? && (edit.SetAdvanceName? || name != "") ==>
              f.salary == emp.value.weeklySalary
              && f.remaining + TakenBy(advances, name) == emp.value.weeklySalary)
        && (emp.None? || (edit.SetAdvanceAmount? && name == "") ==>
              f.salary == old(advances[index].fields.salary) && f.remaining == old(advances[index].fields.remaining))
      ensures articles == old(articles) && absences == old(absences)
      ensures securityCode == old(securityCode) && editingItem == old(editingItem)
      ensures editingTable == old(editingTable)
    {
      var row := advances[index];
      assert OfTable(row, Advances);
      var name, advance := row.fields.name, row.fields.advance;
      match edit {
        case SetAdvanceName(v) => name := v;
        case SetAdvanceAmount(v) => advance := v;
      }
      var edited := row.(fields := AdvanceFields(name, advance, row.fields.salary, row.fields.remaining));
      var updated := advances[index := edited];
      if edit.SetAdvanceName? || name != "" {
        var emp := FindEmployee(employees, name);
        if emp.Some? {
          var taken := TakenBy(updated, name);
          if edit.SetAdvanceName? {
            TakenTruthyIsTakenBy(updated, name);
            taken := TakenTruthy(updated, name);
          }
          var salary := emp.value.weeklySalary;
          var done := row.(fields := AdvanceFields(name, advance, salary, salary - taken));
          TakenByUpdate(updated, index, done, name);
          updated := updated[index := done];
        }
      }
      advances := updated;
    }

    /** handleAbsenceChange: the field is set on row `index`; once both
        dates are filled, changing either recomputes the day count. */
    method ChangeAbsence(index: nat, edit: AbsenceEdit)
      requires Valid() && index < |absences|
      modifies this
      ensures Valid()
      ensures |absences| == |old(absences)|
      ensures forall i :: 0 <= i < |absences| && i != index ==> absences[i] == old(absences[i])
      ensures absences[index].id == old(absences[index].id) && absences[index].isSaved == old(absences[index].isSaved)
      ensures var f := absences[index].fields;
        var g := old(absences[index].fields);
        && (edit.SetAbsenceName? ==> f == g.(name := edit.name))
        && (edit.SetStartDate? ==> f.startDate == edit.startDate && f.endDate == g.endDate)
        && (edit.SetEndDate? ==> f.endDate == edit.endDate && f.startDate == g.startDate)
        && (edit.SetStartDate? || edit.SetEndDate? ==> f.name == g.name && f.reason == g.reason)
        && ((edit.SetStartDate? || edit.SetEndDate?) && f.startDate.Some? && f.endDate.Some? ==>
              f.days == AbsenceDays(f.startDate.value, f.endDate.value))
        && (!((edit.SetStartDate? || edit.SetEndDate?) && f.startDate.Some? && f.endDate.Some?) ==>
              f.days == g.days)
      ensures articles == old(articles) && advances == old(advances)
      ensures securityCode == old(securityCode) && editingItem == old(editingItem)
      ensures editingTable == old(editingTable)
    {
      var row := absences[index];
      assert OfTable(row, Absences);
      var g := row.fields;
      var f := AbsenceFields(g.name, g.startDate, g.endDate, g.days, g.reason);
      match edit {
        case SetAbsenceName(v) => f := AbsenceFields(v, g.startDate, g.endDate, g.days, g.reason);
        case SetStartDate(v) => f := AbsenceFields(g.name, v, g.endDate, g.days, g.reason);
        case SetEndDate(v) => f := AbsenceFields(g.name, g.startDate, v, g.days, g.reason);
      }
      if (edit.SetStartDate? || edit.SetEndDate?) && f.startDate.Some? && f.endDate.Some? {
        f := AbsenceFields(f.name, f.startDate, f.endDate, AbsenceDays(f.startDate.value, f.endDate.value), f.reason);
      }
      absences := absences[index := row.(fields := f)];
    }
  }
}
