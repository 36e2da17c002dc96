/** The admin's student directory page: the search box and status pills
    over the roster, the pill counts, and the edit dialog's request. */
module StudentManagement {
  import opened Base
  import opened Students
  import opened GroceryCalculator

  // ---------------------------------------------------------------------------
  // filteredStudents
  // ---------------------------------------------------------------------------

  /** The search box: the term occurs in the name, ignoring case, or in the
      roll number as typed. */
  predicate MatchesSearch(name: string, rollNo: string, term: string)
  {
    Includes(Lower(name), Lower(term)) || Includes(rollNo, term)
  }

  /** The status pill: 'All', or the exact status. */
  predicate MatchesStatus(status: string, filter: string)
  {
    filter == "All" || status == filter
  }

  function Shown(term: string, filter: string): PublicStudent -> bool
  {
    (s: PublicStudent) => MatchesSearch(s.name, s.rollNo, term) && MatchesStatus(StatusName(s.status), filter)
  }

  /** filteredStudents: the roster's students that match both the search and
      the pill. */
  function FilteredStudents(students: seq<PublicStudent>, term: string, filter: string): (r: seq<PublicStudent>)
    ensures |r| <= |students|
    ensures forall s :: s in r <==>
      s in students && MatchesSearch(s.name, s.rollNo, term) && MatchesStatus(StatusName(s.status), filter)
  {
    Filter(students, Shown(term, filter))
  }

  /** The table lists the matching students in roster order. */
  lemma FilteredKeepsOrder(students: seq<PublicStudent>, term: string, filter: string)
    ensures IsSubsequence(FilteredStudents(students, term, filter), students)
  {
    FilterIsSubsequence(students, Shown(term, filter));
  }

  /** With an empty search and the 'All' pill every student is listed. */
  lemma EmptySearchShowsAll(students: seq<PublicStudent>)
    ensures FilteredStudents(students, "", "All") == students
  {
    assert Lower("") == "";
    forall j | 0 <= j < |students|
      ensures Shown("", "All")(students[j])
    {
      IncludesEmpty(Lower(students[j].name));
    }
    FilterKeepsAll(students, Shown("", "All"));
  }

  // ---------------------------------------------------------------------------
  // activeCount and inactiveCount
  // ---------------------------------------------------------------------------

  predicate IsInactive(s: PublicStudent)
  {
    s.status != Active
  }

  /** `students.filter(s => s.status !== 'Active').length` */
  function InactiveCount(students: seq<PublicStudent>): (n: nat)
    ensures n <= |students|
    ensures n == 0 <==> forall i :: 0 <= i < |students| ==> students[i].status == Active
  {
    Count(students, IsInactive)
  }

  /** The Active and Inactive pills add up to the All pill. */
  lemma PillsAddUp(students: seq<PublicStudent>)
    ensures ActiveCount(students) + InactiveCount(students) == |students|
  {
    CountComplement(students, IsActive, IsInactive);
  }

  /** With an empty search, the Active pill lists as many students as its
      count says, and so does the Inactive pill. */
  lemma PillCountsMatchLists(students: seq<PublicStudent>)
    ensures |FilteredStudents(students, "", "Active")| == ActiveCount(students)
    ensures |FilteredStudents(students, "", "Inactive")| == InactiveCount(students)
  {
    assert Lower("") == "";
    forall s: PublicStudent
      ensures Shown("", "Active")(s) == IsActive(s) && Shown("", "Inactive")(s) == IsInactive(s)
    {
      IncludesEmpty(Lower(s.name));
    }
    FilterLength(students, Shown("", "Active"));
    CountSame(students, Shown("", "Active"), IsActive);
    FilterLength(students, Shown("", "Inactive"));
    CountSame(students, Shown("", "Inactive"), IsInactive);
  }

  // ---------------------------------------------------------------------------
  // The edit dialog
  // ---------------------------------------------------------------------------

  /** The dialog's `formData`. `status` is "" until the admin picks one:
      openEditModal does not fill it in. */
  datatype StudentForm = StudentForm(
    name: string, rollNo: string, roomNo: string, phone: string, email: string,
    password: string, status: string)

  /** openEditModal: the student's fields, "" for a missing phone or email,
      and an empty password. */
  function EditForm(s: PublicStudent): (f: StudentForm)
    ensures f.name == s.name && f.rollNo == s.rollNo && f.roomNo == s.roomNo
    ensures f.phone == (if s.phone.Some? then s.phone.value else "")
    ensures f.email == (if s.email.Some? then s.email.value else "")
    ensures f.password == "" && f.status == ""
  {
    StudentForm(s.name, s.rollNo, s.roomNo,
                if s.phone.Some? then s.phone.value else "",
                if s.email.Some? then s.email.value else "", "", "")
  }

  /** The JSON the edit sends: a copy of the form without `password` when it
      is blank, and without `status` when none was picked. */
  datatype EditPayload = EditPayload(
    name: string, rollNo: string, roomNo: string, phone: string, email: string,
    password: Option<string>, status: Option<string>)

  /** `{ ...formData }`, then `delete updateData.password` when it is falsy. */
  function Payload(f: StudentForm): (p: EditPayload)
    ensures p.password.None? <==> f.password == ""
    ensures p.password.Some? ==> p.password.value == f.password
    ensures p.status.None? <==> f.status == ""
    ensures p.name == f.name && p.rollNo == f.rollNo && p.roomNo == f.roomNo
    ensures p.phone == f.phone && p.email == f.email
  {
    EditPayload(f.name, f.rollNo, f.roomNo, f.phone, f.email,
                if f.password == "" then None else Some(f.password),
                if f.status == "" then None else Some(f.status))
  }

  /** What updateStudent reads from that JSON: an absent field reads as
      empty, and `rollNo` is not read at all. */
  function Received(p: EditPayload): (b: UpdateBody)
    ensures b.password == "" <==> p.password.None? || p.password == Some("")
    ensures b.status == "" <==> p.status.None? || p.status == Some("")
  {
    UpdateBody(p.name, p.roomNo, p.email, p.phone,
               if p.status.Some? then p.status.value else "",
               if p.password.Some? then p.password.value else "")
  }

  /** Saving with the password box left blank keeps the stored password. */
  lemma BlankPasswordKeepsPassword(doc: StudentDoc, f: StudentForm, hash: string -> Hash)
    requires f.password == ""
    ensures Payload(f).password.None?
    ensures Updated(doc, Received(Payload(f)), hash).Some? ==>
      Updated(doc, Received(Payload(f)), hash).value.password == doc.password
  {
  }

  /** Opening a student's edit dialog and saving it untouched leaves the
      student exactly as stored. */
  lemma UntouchedEditKeepsStudent(doc: StudentDoc, hash: string -> Hash)
    ensures Updated(doc, Received(Payload(EditForm(Public(doc)))), hash) == Some(doc)
  {
    var b := Received(Payload(EditForm(Public(doc))));
    assert b.status == "" && b.password == "";
    var u := Updated(doc, b, hash).value;
    assert u.email == doc.email && u.phone == doc.phone;
  }
}
