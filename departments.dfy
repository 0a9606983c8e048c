/** Departments (departments.go): the `departments` table keyed by its
    code, creation, update (which may rename the key), deletion behind the
    check that no teacher is assigned, and the listing ordered by code. */
module Departments {
  import opened Wrappers
  import opened Text
  import opened App
  import opened Ordering

  type UserId = int

  /** A department row apart from its key; the description is NULL when empty. */
  datatype Dept = Dept(name: string, description: Option<string>, isActive: bool)

  /** A listed department, key included. */
  datatype DeptRow = DeptRow(code: string, name: string, description: Option<string>, isActive: bool)

  /** Sort key of `ORDER BY department_code` under the store's
      case-insensitive collation. */
  function CodeKey(d: DeptRow): seq<int> {
    Codes(Lower(d.code))
  }

  function RowOf(depts: map<string, Dept>, code: string): (r: DeptRow)
    requires code in depts
    ensures r.code == code
    ensures Dept(r.name, r.description, r.isActive) == depts[code]
  {
    DeptRow(code, depts[code].name, depts[code].description, depts[code].isActive)
  }

  /** The teachers whose department is `code`: what the usage query counts. */
  function AssignedTeachers(teachers: map<UserId, Option<string>>, code: string): (r: set<UserId>)
    ensures forall t :: t in r <==> t in teachers && teachers[t] == Some(code)
  {
    set t | t in teachers && teachers[t] == Some(code)
  }

  /** The table after the row `oldCode` takes the key `code` and the new values. */
  function Rename(depts: map<string, Dept>, oldCode: string, code: string, d: Dept): (r: map<string, Dept>)
    requires oldCode in depts
    ensures r.Keys == depts.Keys - {oldCode} + {code}
    ensures r[code] == d
    ensures forall k :: k in depts && k != oldCode && k != code ==> r[k] == depts[k]
  {
    (depts - {oldCode})[code := d]
  }

  /** Renaming a row and renaming it back restores the table, when the new
      key was free. */
  lemma RenameBack(depts: map<string, Dept>, oldCode: string, code: string, d: Dept)
    requires oldCode in depts
    requires code == oldCode || code !in depts
    ensures Rename(Rename(depts, oldCode, code, d), code, oldCode, depts[oldCode]) == depts
  {
    var back := Rename(Rename(depts, oldCode, code, d), code, oldCode, depts[oldCode]);
    assert back.Keys == depts.Keys;
  }

  /** Updating a row with its own key keeps every other row and the key set. */
  lemma RenameSameKey(depts: map<string, Dept>, code: string, d: Dept)
    requires code in depts
    ensures Rename(depts, code, code, d) == depts[code := d]
  {
  }

  /** The message of a refused deletion. */
  function InUseMessage(count: nat): (r: string)
    ensures IsPrefix("cannot delete department: ", r)
  {
    "cannot delete department: " + NatText(count) + " teacher(s) are assigned to this department"
  }

  class DepartmentBook {
    var depts: map<string, Dept>

    constructor(depts: map<string, Dept>)
      ensures this.depts == depts
    {
      this.depts := depts;
    }

    /** `CreateDepartment`: a new row, active, with an empty description
        stored as NULL; an existing code violates the key and stores nothing. */
    method Create(code: string, name: string, description: string) returns (r: Result<(), string>)
      modifies this
      ensures r.Err? <==> code in old(depts)
      ensures r.Err? ==> r.error == "failed to create department" && depts == old(depts)
      ensures r.Ok? ==> depts == old(depts)[code := Dept(name, NullString(description), true)]
    {
      if code in depts {
        return Err("failed to create department");
      }
      depts := depts[code := Dept(name, NullString(description), true)];
      r := Ok(());
    }

    /** `UpdateDepartment`: the row with the old code gets the new code, name,
        description and flag; a new code taken by another row violates the
        key and changes nothing; no row with the old code changes nothing
        and is no error. */
    method Update(oldCode: string, code: string, name: string, description: string, isActive: bool)
      returns (r: Result<(), string>)
      modifies this
      ensures r.Err? <==> oldCode in old(depts) && code != oldCode && code in old(depts)
      ensures r.Err? ==> r.error == "failed to update department" && depts == old(depts)
      ensures r.Ok? && oldCode in old(depts) ==>
        depts == Rename(old(depts), oldCode, code, Dept(name, NullString(description), isActive))
      ensures oldCode !in old(depts) ==> depts == old(depts)
    {
      if oldCode !in depts {
        return Ok(());
      }
      if code != oldCode && code in depts {
        return Err("failed to update department");
      }
      depts := Rename(depts, oldCode, code, Dept(name, NullString(description), isActive));
      r := Ok(());
    }

    /** `DeleteDepartment`: refused while any teacher is assigned, with their
        number in the message; a missing code is an error; otherwise the row
        is removed. */
    method Delete(code: string, teachers: map<UserId, Option<string>>) returns (r: Result<(), string>)
      modifies this
      ensures r.Ok? <==> AssignedTeachers(teachers, code) == {} && code in old(depts)
      ensures AssignedTeachers(teachers, code) != {} ==>
        r == Err(InUseMessage(|AssignedTeachers(teachers, code)|))
      ensures AssignedTeachers(teachers, code) == {} && code !in old(depts) ==>
        r == Err("department not found: " + code)
      ensures r.Err? ==> depts == old(depts)
      ensures r.Ok? ==> depts == old(depts) - {code}
    {
      var count := |AssignedTeachers(teachers, code)|;
      if count > 0 {
        return Err(InUseMessage(count));
      }
      if code !in depts {
        return Err("department not found: " + code);
      }
      depts := depts - {code};
      r := Ok(());
    }

    /** `GetDepartments`: every row once, ordered by code. */
    method List() returns (r: seq<DeptRow>)
      ensures forall code :: code in depts <==> exists i :: 0 <= i < |r| && r[i].code == code
      ensures forall i :: 0 <= i < |r| ==> r[i].code in depts && r[i] == RowOf(depts, r[i].code)
      ensures forall i, j :: 0 <= i < j < |r| ==> r[i].code != r[j].code
      ensures SortedBy(r, CodeKey)
    {
      var entries := set code | code in depts :: RowOf(depts, code);
      var listed := ListSet(entries);
      r := SortBy(listed, CodeKey);
      ListedMembers(r, entries);
      DistinctOfSet(r, entries);
      forall code | code in depts
        ensures exists i :: 0 <= i < |r| && r[i].code == code
      {
        assert RowOf(depts, code) in entries;
      }
    }
  }

  /** Creating a fresh code and then deleting it, with no teacher assigned,
      leaves the table as it was. */
  lemma CreateThenDelete(depts: map<string, Dept>, code: string, d: Dept)
    requires code !in depts
    ensures depts[code := d] - {code} == depts
  {
    assert (depts[code := d] - {code}).Keys == depts.Keys;
  }
}
