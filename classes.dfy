/** Classes and enrollment (classes.go): the `classes` and `classlist`
    tables, enrollment upserts, unenrollment, joining a class by its EDP
    code, the class-roster query, soft deletion and archiving. */
module Classes {
  import opened Wrappers
  import opened Clock
  import opened Text
  import opened Ordering

  type ClassId = int
  type UserId = int

  /** `classlist.status`. */
  datatype EnrollStatus = Active | Dropped

  datatype ClassRow = ClassRow(
    subjectCode: string,
    edpCode: Option<string>,
    teacher: UserId,
    schedule: Option<string>,
    isActive: bool,
    isArchived: Option<bool>,
    createdAt: Instant)

  /** Name columns of a `students` row. */
  datatype StudentName = StudentName(first: string, middle: Option<string>, last: string)

  /** One row of `GetClassStudents`. */
  datatype RosterEntry = RosterEntry(student: UserId, name: StudentName)

  datatype ClassError = StoreFailure | NoClassesForCode | NotATeacher

  /** Sort key of `ORDER BY last_name, first_name` under the store's
      case-insensitive collation: both names are compared lower-cased; the
      separator -1 sorts below every character, so a shorter last name that
      is a prefix of a longer one comes first. */
  function NameKey(e: RosterEntry): seq<int> {
    Codes(Lower(e.name.last)) + [-1] + Codes(Lower(e.name.first))
  }

  /** Sort key of `ORDER BY created_at DESC`. */
  function NewestFirstKey(t: Instant): seq<int> {
    [-t.date.year, -t.date.month, -t.date.day, -t.secs]
  }

  /** Text order on code points. */
  predicate TextLeq(a: string, b: string) {
    LexLeq(Codes(a), Codes(b))
  }

  lemma {:induction false} NameKeyOrderFrom(a1: string, b1: string, a2: string, b2: string)
    ensures LexLeq(Codes(a1) + [-1] + Codes(b1), Codes(a2) + [-1] + Codes(b2))
        <==> (TextLeq(a1, a2) && a1 != a2) || (a1 == a2 && TextLeq(b1, b2))
    decreases |a1|
  {
    var x := Codes(a1) + [-1] + Codes(b1);
    var y := Codes(a2) + [-1] + Codes(b2);
    if |a1| == 0 && |a2| == 0 {
      assert x[1..] == Codes(b1) && y[1..] == Codes(b2);
    } else if |a1| == 0 {
      assert y[0] == a2[0] as int;
    } else if |a2| == 0 {
      assert x[0] == a1[0] as int;
    } else {
      assert x[0] == a1[0] as int && y[0] == a2[0] as int;
      assert x[1..] == Codes(a1[1..]) + [-1] + Codes(b1);
      assert y[1..] == Codes(a2[1..]) + [-1] + Codes(b2);
      assert Codes(a1)[1..] == Codes(a1[1..]);
      assert Codes(a2)[1..] == Codes(a2[1..]);
      NameKeyOrderFrom(a1[1..], b1, a2[1..], b2);
      if a1[0] == a2[0] {
        assert a1 == [a1[0]] + a1[1..] && a2 == [a2[0]] + a2[1..];
        assert a1 == a2 <==> a1[1..] == a2[1..];
      }
    }
  }

  /** The roster key orders entries by last name, then by first name, each
      compared without regard to letter case. */
  lemma NameKeyOrder(e1: RosterEntry, e2: RosterEntry)
    ensures var l1, l2, f1, f2 := Lower(e1.name.last), Lower(e2.name.last), Lower(e1.name.first), Lower(e2.name.first);
      LexLeq(NameKey(e1), NameKey(e2)) <==> ((TextLeq(l1, l2) && l1 != l2) || (l1 == l2 && TextLeq(f1, f2)))
  {
    NameKeyOrderFrom(Lower(e1.name.last), Lower(e1.name.first), Lower(e2.name.last), Lower(e2.name.first));
  }

  /** The classlist with every listed student actively enrolled in `classId`. */
  function EnrollAll(cl: map<(ClassId, UserId), EnrollStatus>, classId: ClassId, ids: seq<UserId>)
    : (r: map<(ClassId, UserId), EnrollStatus>)
    ensures forall s :: s in ids ==> (classId, s) in r && r[(classId, s)] == Active
    ensures forall k :: k in cl && !(k.0 == classId && k.1 in ids) ==> k in r && r[k] == cl[k]
    ensures forall k :: k in r ==> k in cl || (k.0 == classId && k.1 in ids)
  {
    map k | k in cl.Keys + (set s | s in ids :: (classId, s)) ::
      if k.0 == classId && k.1 in ids then Active else cl[k]
  }

  /** Enrolling a list of students and then a longer list that extends it is
      the same as enrolling the longer list. */
  lemma EnrollAllExtend(cl: map<(ClassId, UserId), EnrollStatus>, classId: ClassId, ids: seq<UserId>, s: UserId)
    ensures EnrollAll(cl, classId, ids + [s]) == EnrollAll(cl, classId, ids)[(classId, s) := Active]
  {
  }

  /** Whether a student is actively enrolled in a class. */
  predicate IsActiveIn(cl: map<(ClassId, UserId), EnrollStatus>, classId: ClassId, student: UserId) {
    (classId, student) in cl && cl[(classId, student)] == Active
  }

  /** The classes `GetClassesByEDPCode` finds: matching code and active. */
  function ClassesWithCode(classes: map<ClassId, ClassRow>, code: string): set<ClassId> {
    set c | c in classes && classes[c].edpCode == Some(code) && classes[c].isActive
  }

  /** Some class carries the code and the student is enrolled in none of them. */
  predicate NoneActive(classes: map<ClassId, ClassRow>, cl: map<(ClassId, UserId), EnrollStatus>, code: string, student: UserId) {
    ClassesWithCode(classes, code) != {}
    && forall c :: c in ClassesWithCode(classes, code) ==> !IsActiveIn(cl, c, student)
  }

  /** `GetTeacherClasses` filter: the teacher's active classes whose archive flag is false or NULL. */
  function TeacherClasses(classes: map<ClassId, ClassRow>, teacher: UserId): (r: set<ClassId>)
    ensures forall c :: c in r <==>
      c in classes && classes[c].teacher == teacher && classes[c].isActive && classes[c].isArchived != Some(true)
  {
    set c | c in classes && classes[c].teacher == teacher && classes[c].isActive && classes[c].isArchived != Some(true)
  }

  /** Deleting a class (`is_active` false) or archiving it removes it from
      every teacher's listing and leaves the rest of the listing as it was;
      unarchiving an active class puts it back into its teacher's listing. */
  lemma TeacherClassesAfter(classes: map<ClassId, ClassRow>, c: ClassId, teacher: UserId)
    requires c in classes
    ensures TeacherClasses(classes[c := classes[c].(isActive := false)], teacher) == TeacherClasses(classes, teacher) - {c}
    ensures TeacherClasses(classes[c := classes[c].(isArchived := Some(true))], teacher) == TeacherClasses(classes, teacher) - {c}
    ensures classes[c].isActive && classes[c].teacher == teacher ==>
      TeacherClasses(classes[c := classes[c].(isArchived := Some(false))], teacher) == TeacherClasses(classes, teacher) + {c}
  {
    var deleted := classes[c := classes[c].(isActive := false)];
    var archived := classes[c := classes[c].(isArchived := Some(true))];
    var restored := classes[c := classes[c].(isArchived := Some(false))];
    assert forall d :: d in TeacherClasses(deleted, teacher) <==> d in TeacherClasses(classes, teacher) - {c};
    assert forall d :: d in TeacherClasses(archived, teacher) <==> d in TeacherClasses(classes, teacher) - {c};
    if classes[c].isActive && classes[c].teacher == teacher {
      assert forall d :: d in TeacherClasses(restored, teacher) <==> d in TeacherClasses(classes, teacher) + {c};
    }
  }

  /** The roster entries of the students `ids`, each once, by last then first name. */
  method SortedRoster(ids: set<UserId>, names: map<UserId, StudentName>) returns (r: seq<RosterEntry>)
    requires ids <= names.Keys
    ensures forall s :: s in ids <==> exists i :: 0 <= i < |r| && r[i].student == s
    ensures forall i :: 0 <= i < |r| ==> r[i].student in names && r[i].name == names[r[i].student]
    ensures forall i, j :: 0 <= i < j < |r| ==> r[i].student != r[j].student
    ensures SortedBy(r, NameKey)
  {
    var entries := set s | s in ids :: RosterEntry(s, names[s]);
    var listed := ListSet(entries);
    r := SortBy(listed, NameKey);
    ListedMembers(r, entries);
    DistinctOfSet(r, entries);
    forall s | s in ids
      ensures exists i :: 0 <= i < |r| && r[i].student == s
    {
      assert RosterEntry(s, names[s]) in entries;
    }
  }

  class ClassBook {
    var classes: map<ClassId, ClassRow>
    var classlist: map<(ClassId, UserId), EnrollStatus>
    var subjects: set<string>
    var teachers: set<UserId>

    constructor(classes: map<ClassId, ClassRow>, classlist: map<(ClassId, UserId), EnrollStatus>,
                subjects: set<string>, teachers: set<UserId>)
      ensures this.classes == classes && this.classlist == classlist
      ensures this.subjects == subjects && this.teachers == teachers
    {
      this.classes := classes;
      this.classlist := classlist;
      this.subjects := subjects;
      this.teachers := teachers;
    }

    /** `EnrollStudentInClass`: upsert (class, student) as active. `writeOk`
        stands for whether the store accepts the insert. */
    method Enroll(student: UserId, classId: ClassId, writeOk: bool) returns (r: Result<(), ClassError>)
      modifies this
      ensures r.Ok? <==> writeOk
      ensures writeOk ==> classlist == old(classlist)[(classId, student) := Active]
      ensures !writeOk ==> classlist == old(classlist)
      ensures classes == old(classes) && subjects == old(subjects) && teachers == old(teachers)
    {
      if !writeOk {
        return Err(StoreFailure);
      }
      classlist := classlist[(classId, student) := Active];
      return Ok(());
    }

    /** `EnrollMultipleStudents`: one transaction; the first insert the store
        refuses (a student in `failing`) rolls everything back. */
    method EnrollMany(ids: seq<UserId>, classId: ClassId, failing: set<UserId>) returns (r: Result<(), ClassError>)
      modifies this
      ensures r.Ok? <==> forall k :: 0 <= k < |ids| ==> ids[k] !in failing
      ensures r.Ok? ==> classlist == EnrollAll(old(classlist), classId, ids)
      ensures r.Err? ==> classlist == old(classlist)
      ensures classes == old(classes) && subjects == old(subjects) && teachers == old(teachers)
    {
      var pending := classlist;
      var i := 0;
      while i < |ids|
        invariant 0 <= i <= |ids|
        invariant pending == EnrollAll(classlist, classId, ids[..i])
        invariant forall j :: 0 <= j < i ==> ids[j] !in failing
        invariant classlist == old(classlist) && classes == old(classes)
        invariant subjects == old(subjects) && teachers == old(teachers)
      {
        if ids[i] in failing {
          return Err(StoreFailure);
        }
        assert ids[..i + 1] == ids[..i] + [ids[i]];
        EnrollAllExtend(classlist, classId, ids[..i], ids[i]);
        pending := pending[(classId, ids[i]) := Active];
        i := i + 1;
      }
      assert ids[..i] == ids;
      classlist := pending;
      return Ok(());
    }

    /** `UnenrollStudentFromClass(id)`: the id is taken as a class id and
        every enrollment of that class is dropped. */
    method UnenrollClass(classId: ClassId)
      modifies this
      ensures classlist.Keys == old(classlist).Keys
      ensures forall k :: k in classlist ==> classlist[k] == (if k.0 == classId then Dropped else old(classlist)[k])
      ensures classes == old(classes) && subjects == old(subjects) && teachers == old(teachers)
    {
      classlist := map k | k in classlist :: if k.0 == classId then Dropped else classlist[k];
    }

    /** `UnenrollStudentFromClassByIDs`: drops exactly one (class, student) pair, if present. */
    method UnenrollPair(student: UserId, classId: ClassId)
      modifies this
      ensures (classId, student) in old(classlist) ==> classlist == old(classlist)[(classId, student) := Dropped]
      ensures (classId, student) !in old(classlist) ==> classlist == old(classlist)
      ensures classes == old(classes) && subjects == old(subjects) && teachers == old(teachers)
    {
      if (classId, student) in classlist {
        classlist := classlist[(classId, student) := Dropped];
      }
    }

    /** The students `GetClassStudents` can return: active enrollees that
        have a student profile, of a class whose subject exists (the query
        joins `students`, `classes` and `subjects`). */
    function RosterIds(classId: ClassId, profiles: map<UserId, StudentName>): set<UserId>
      reads this
    {
      if classId in classes && classes[classId].subjectCode in subjects then
        set k | k in classlist && k.0 == classId && classlist[k] == Active && k.1 in profiles :: k.1
      else {}
    }

    /** `GetClassStudents`: the roster, each student once, ordered by last
        name then first name. */
    method ClassStudents(classId: ClassId, profiles: map<UserId, StudentName>) returns (r: seq<RosterEntry>)
      ensures forall s :: s in RosterIds(classId, profiles) <==> exists i :: 0 <= i < |r| && r[i].student == s
      ensures forall i :: 0 <= i < |r| ==> r[i].student in profiles && r[i].name == profiles[r[i].student]
      ensures forall i, j :: 0 <= i < j < |r| ==> r[i].student != r[j].student
      ensures SortedBy(r, NameKey)
    {
      r := SortedRoster(RosterIds(classId, profiles), profiles);
    }

    /** `GetClassesByEDPCode`: the active classes carrying the code, newest first. */
    method ClassesByCode(code: string) returns (r: seq<ClassId>)
      ensures multiset(r) == multiset(ClassesWithCode(classes, code))
      ensures forall i :: 0 <= i < |r| ==> r[i] in classes
      ensures forall i, j :: 0 <= i < j < |r| ==>
        NotAfter(classes[r[j]].createdAt, classes[r[i]].createdAt)
    {
      var found := ListSet(ClassesWithCode(classes, code));
      var snapshot := classes;
      r := SortBy(found, c => if c in snapshot then NewestFirstKey(snapshot[c].createdAt) else []);
      forall i | 0 <= i < |r|
        ensures r[i] in classes
      {
        assert r[i] in multiset(found);
      }
      forall i, j | 0 <= i < j < |r|
        ensures NotAfter(classes[r[j]].createdAt, classes[r[i]].createdAt)
      {
        assert r[i] in multiset(found) && r[j] in multiset(found);
        NewestFirstKeyOrder(classes[r[i]].createdAt, classes[r[j]].createdAt);
      }
    }

    /** `JoinClassByEDPCode`: no active class with the code is an error; the
        newest matching class the student is actively enrolled in is returned
        without a write;
        otherwise the student is enrolled in the newest matching class. */
    method JoinByCode(student: UserId, code: string, writeOk: bool) returns (r: Result<ClassId, ClassError>)
      modifies this
      ensures ClassesWithCode(old(classes), code) == {} <==> r == Err(NoClassesForCode)
      ensures (exists c :: c in ClassesWithCode(old(classes), code) && IsActiveIn(old(classlist), c, student)) ==>
        r.Ok? && r.value in ClassesWithCode(old(classes), code) && IsActiveIn(old(classlist), r.value, student)
        && (forall c :: c in ClassesWithCode(old(classes), code) && IsActiveIn(old(classlist), c, student) ==>
              NotAfter(old(classes)[c].createdAt, old(classes)[r.value].createdAt))
        && classlist == old(classlist)
      ensures NoneActive(old(classes), old(classlist), code, student) && writeOk ==>
        r.Ok? && r.value in ClassesWithCode(old(classes), code)
        && (forall c :: c in ClassesWithCode(old(classes), code) ==>
              NotAfter(old(classes)[c].createdAt, old(classes)[r.value].createdAt))
        && classlist == old(classlist)[(r.value, student) := Active]
      ensures NoneActive(old(classes), old(classlist), code, student) && !writeOk ==>
        r == Err(StoreFailure) && classlist == old(classlist)
      ensures classes == old(classes) && subjects == old(subjects) && teachers == old(teachers)
    {
      var found := ClassesByCode(code);
      if |found| == 0 {
        assert ClassesWithCode(classes, code) == {};
        return Err(NoClassesForCode);
      }
      assert found[0] in multiset(ClassesWithCode(classes, code));
      var i := 0;
      while i < |found|
        invariant 0 <= i <= |found|
        invariant forall j :: 0 <= j < i ==> !IsActiveIn(classlist, found[j], student)
      {
        if (found[i], student) in classlist && classlist[(found[i], student)] == Active {
          assert found[i] in multiset(ClassesWithCode(classes, code));
          forall c | c in ClassesWithCode(classes, code) && IsActiveIn(classlist, c, student)
            ensures NotAfter(classes[c].createdAt, classes[found[i]].createdAt)
          {
            assert c in multiset(found);
            var k :| 0 <= k < |found| && found[k] == c;
            if k == i {
              NotAfterRefl(classes[c].createdAt);
            }
          }
          return Ok(found[i]);
        }
        i := i + 1;
      }
      forall c | c in ClassesWithCode(classes, code)
        ensures !IsActiveIn(classlist, c, student)
      {
        assert c in multiset(found);
      }
      forall c | c in ClassesWithCode(classes, code)
        ensures NotAfter(classes[c].createdAt, classes[found[0]].createdAt)
      {
        assert c in multiset(found);
        var k :| 0 <= k < |found| && found[k] == c;
        if k > 0 {
        } else {
          NotAfterRefl(classes[c].createdAt);
        }
      }
      var e := Enroll(student, found[0], writeOk);
      if e.Err? {
        return Err(StoreFailure);
      }
      return Ok(found[0]);
    }

    /** `DeleteClass`: a soft delete that only clears `is_active`. */
    method DeleteClass(classId: ClassId)
      modifies this
      ensures classId in old(classes) ==> classes == old(classes)[classId := old(classes)[classId].(isActive := false)]
      ensures classId !in old(classes) ==> classes == old(classes)
      ensures classlist == old(classlist) && subjects == old(subjects) && teachers == old(teachers)
    {
      if classId in classes {
        classes := classes[classId := classes[classId].(isActive := false)];
      }
    }

    /** `ArchiveClass` (`archive` true) and `UnarchiveClass` (`archive` false): only `is_archived` changes. */
    method SetArchived(classId: ClassId, archive: bool)
      modifies this
      ensures classId in old(classes) ==> classes == old(classes)[classId := old(classes)[classId].(isArchived := Some(archive))]
      ensures classId !in old(classes) ==> classes == old(classes)
      ensures classlist == old(classlist) && subjects == old(subjects) && teachers == old(teachers)
    {
      if classId in classes {
        classes := classes[classId := classes[classId].(isArchived := Some(archive))];
      }
    }

    /** `GetTeacherID`: the same id for a teacher, an error otherwise. */
    function TeacherId(userId: UserId): (r: Result<UserId, ClassError>)
      reads this
      ensures r.Ok? <==> userId in teachers
      ensures r.Ok? ==> r.value == userId
      ensures r.Err? ==> r.error == NotATeacher
    {
      if userId in teachers then Ok(userId) else Err(NotATeacher)
    }
  }

  lemma NotAfterRefl(t: Instant)
    ensures NotAfter(t, t)
  {
  }

  /** Newest-first keys order instants from the latest to the earliest. */
  lemma NewestFirstKeyOrder(a: Instant, b: Instant)
    ensures LexLeq(NewestFirstKey(a), NewestFirstKey(b)) ==> NotAfter(b, a)
  {
    var ka, kb := NewestFirstKey(a), NewestFirstKey(b);
    if LexLeq(ka, kb) && ka[0] == kb[0] {
      var ka1, kb1 := [-a.date.month, -a.date.day, -a.secs], [-b.date.month, -b.date.day, -b.secs];
      assert ka[1..] == ka1 && kb[1..] == kb1;
      assert LexLeq(ka1, kb1);
      if ka1[0] == kb1[0] {
        var ka2, kb2 := [-a.date.day, -a.secs], [-b.date.day, -b.secs];
        assert ka1[1..] == ka2 && kb1[1..] == kb2;
        assert LexLeq(ka2, kb2);
        if ka2[0] == kb2[0] {
          assert ka2[1..] == [-a.secs] && kb2[1..] == [-b.secs];
          assert LexLeq([-a.secs], [-b.secs]);
        }
      }
    }
  }
}
