/**
 The department hierarchy of a tenant (`services/tenant-service/app/api.py`): every write of a parent
 link is preceded by a walk up from the new parent.
 */
module Departments {
  import opened Common

  type Id = string

  datatype Status = Active | Inactive

  datatype Department = Department(tenant: Id, code: string, name: string, status: Status, parent: Option<Id>)

  type Table = map<Id, Department>

  datatype Error = NotFound | ParentInvalid | ContainsCycle | WouldMakeCycle | CodeTaken

  /** `parent` is unset, set to null or set to a department. */
  datatype Changes = Changes(name: Option<string>, status: Option<Status>, parent: Option<Option<Id>>)

  predicate Belongs(rows: Table, tenant: Id, d: Id) {
    d in rows && rows[d].tenant == tenant
  }

  // ---------------------------------------------------------------- what the handlers compute

  /** The walk of `_validate_department_parent` from `current` on; the answer is the error, if any. */
  function Walk(rows: Table, tenant: Id, department: Option<Id>, current: Id, visited: set<Id>): Option<Error>
    requires current in rows
    decreases rows.Keys - visited
  {
    if current in visited then Some(ContainsCycle)
    else if department == Some(current) then Some(WouldMakeCycle)
    else if rows[current].parent.None? then None
    else if !Belongs(rows, tenant, rows[current].parent.value) then Some(ParentInvalid)
    else Walk(rows, tenant, department, rows[current].parent.value, visited + {current})
  }

  /** `_validate_department_parent`. */
  function Validated(rows: Table, tenant: Id, parent: Option<Id>, department: Option<Id>): Option<Error> {
    if parent.None? then None
    else if !Belongs(rows, tenant, parent.value) then Some(ParentInvalid)
    else Walk(rows, tenant, department, parent.value, {})
  }

  predicate CodeInUse(rows: Table, tenant: Id, code: string) {
    exists d :: d in rows && rows[d].tenant == tenant && rows[d].code == code
  }

  function Created(rows: Table, tenant: Id, id: Id, code: string, name: string, parent: Option<Id>)
    : (Result<Department, Error>, Table)
  {
    var error := Validated(rows, tenant, parent, None);
    var row := Department(tenant, code, name, Active, parent);
    if error.Some? then (Err(error.value), rows)
    else if id in rows || CodeInUse(rows, tenant, code) then (Err(CodeTaken), rows)
    else (Ok(row), rows[id := row])
  }

  function Changed(row: Department, changes: Changes): Department {
    Department(row.tenant, row.code,
               if changes.name.Some? then changes.name.value else row.name,
               if changes.status.Some? then changes.status.value else row.status,
               if changes.parent.Some? then changes.parent.value else row.parent)
  }

  function Updated(rows: Table, tenant: Id, id: Id, changes: Changes): (Result<Department, Error>, Table) {
    if !Belongs(rows, tenant, id) then (Err(NotFound), rows)
    else
      var error := if changes.parent.Some? then Validated(rows, tenant, changes.parent.value, Some(id)) else None;
      if error.Some? then (Err(error.value), rows)
      else (Ok(Changed(rows[id], changes)), rows[id := Changed(rows[id], changes)])
  }

  class DepartmentTable {
    var rows: Table

    constructor ()
      ensures rows == map[]
    {
      rows := map[];
    }

    method ValidateParent(tenant: Id, parent: Option<Id>, department: Option<Id>) returns (error: Option<Error>)
      ensures error == Validated(rows, tenant, parent, department)
    {
      if parent.None? {
        return None;
      }
      if parent.value !in rows || rows[parent.value].tenant != tenant {
        return Some(ParentInvalid);
      }
      var visited: set<Id> := {};
      var current := parent.value;
      while true
        invariant current in rows
        invariant Validated(rows, tenant, parent, department) == Walk(rows, tenant, department, current, visited)
        decreases rows.Keys - visited
      {
        if current in visited {
          return Some(ContainsCycle);
        }
        if department == Some(current) {
          return Some(WouldMakeCycle);
        }
        if rows[current].parent.None? {
          return None;
        }
        var next := rows[current].parent.value;
        if next !in rows || rows[next].tenant != tenant {
          return Some(ParentInvalid);
        }
        visited, current := visited + {current}, next;
      }
    }

    method CreateDepartment(tenant: Id, id: Id, code: string, name: string, parent: Option<Id>)
      returns (r: Result<Department, Error>)
      modifies this
      ensures (r, rows) == Created(old(rows), tenant, id, code, name, parent)
    {
      var error := ValidateParent(tenant, parent, None);
      if error.Some? {
        return Err(error.value);
      }
      if id in rows || CodeInUse(rows, tenant, code) {
        return Err(CodeTaken);
      }
      rows := rows[id := Department(tenant, code, name, Active, parent)];
      return Ok(rows[id]);
    }

    method UpdateDepartment(tenant: Id, id: Id, changes: Changes) returns (r: Result<Department, Error>)
      modifies this
      ensures (r, rows) == Updated(old(rows), tenant, id, changes)
    {
      if id !in rows || rows[id].tenant != tenant {
        return Err(NotFound);
      }
      if changes.parent.Some? {
        var error := ValidateParent(tenant, changes.parent.value, Some(id));
        if error.Some? {
          return Err(error.value);
        }
      }
      var row := rows[id];
      if changes.name.Some? {
        row := row.(name := changes.name.value);
      }
      if changes.status.Some? {
        row := row.(status := changes.status.value);
      }
      if changes.parent.Some? {
        row := row.(parent := changes.parent.value);
      }
      rows := rows[id := row];
      return Ok(row);
    }
  }

  // ---------------------------------------------------------------- ancestors

  /** The `n`-th ancestor: the department itself for 0, its parent for 1. */
  function Up(rows: Table, d: Id, n: nat): Option<Id>
    decreases n
  {
    if n == 0 then Some(d)
    else if d in rows && rows[d].parent.Some? then Up(rows, rows[d].parent.value, n - 1)
    else None
  }

  /** `a` is `d` or one of its ancestors. */
  ghost predicate OnPath(rows: Table, d: Id, a: Id) {
    exists n :: Up(rows, d, n) == Some(a)
  }

  ghost predicate Acyclic(rows: Table) {
    forall d, n {:trigger Up(rows, d, n)} :: n > 0 ==> Up(rows, d, n) != Some(d)
  }

  predicate LinkStaysIn(rows: Table, d: Id)
    requires d in rows
  {
    rows[d].parent.Some? ==> Belongs(rows, rows[d].tenant, rows[d].parent.value)
  }

  ghost predicate LinksStayIn(rows: Table) {
    forall d {:trigger LinkStaysIn(rows, d)} :: d in rows ==> LinkStaysIn(rows, d)
  }

  ghost predicate Forest(rows: Table) {
    Acyclic(rows) && LinksStayIn(rows)
  }

  lemma {:induction false} UpAdds(rows: Table, d: Id, i: nat, j: nat)
    ensures Up(rows, d, i + j) == if Up(rows, d, i).Some? then Up(rows, Up(rows, d, i).value, j) else None
    decreases i
  {
    if i > 0 && d in rows && rows[d].parent.Some? {
      UpAdds(rows, rows[d].parent.value, i - 1, j);
    }
  }

  lemma OnPathStep(rows: Table, d: Id, a: Id)
    requires d in rows
    ensures OnPath(rows, d, a) <==> a == d || (rows[d].parent.Some? && OnPath(rows, rows[d].parent.value, a))
  {
    if a == d {
      assert Up(rows, d, 0) == Some(a);
    } else if rows[d].parent.Some? && OnPath(rows, rows[d].parent.value, a) {
      var n: nat :| Up(rows, rows[d].parent.value, n) == Some(a);
      assert Up(rows, d, n + 1) == Some(a);
    }
    if a != d && OnPath(rows, d, a) {
      var n: nat :| Up(rows, d, n) == Some(a);
      if rows[d].parent.Some? {
        assert Up(rows, rows[d].parent.value, n - 1) == Some(a);
      }
    }
  }

  // ---------------------------------------------------------------- the walk decides what it should

  /** Everything visited lies below `current`. */
  ghost predicate Below(rows: Table, v: Id, current: Id) {
    exists n :: n > 0 && Up(rows, v, n) == Some(current)
  }

  lemma NotBelowItself(rows: Table, x: Id)
    requires Acyclic(rows)
    ensures !Below(rows, x, x)
  {
  }

  lemma {:induction false} WalkIsExact(rows: Table, tenant: Id, department: Option<Id>, current: Id, visited: set<Id>)
    requires Forest(rows) && Belongs(rows, tenant, current)
    requires forall v {:trigger Below(rows, v, current)} :: v in visited ==> Below(rows, v, current)
    ensures Walk(rows, tenant, department, current, visited)
         == if department.Some? && OnPath(rows, current, department.value) then Some(WouldMakeCycle) else None
    decreases rows.Keys - visited
  {
    NotBelowItself(rows, current);
    if department.Some? {
      OnPathStep(rows, current, department.value);
    }
    assert LinkStaysIn(rows, current);
    if department != Some(current) && rows[current].parent.Some? {
      var next := rows[current].parent.value;
      forall v | v in visited + {current} ensures Below(rows, v, next) {
        assert Up(rows, current, 1) == Some(next);
        if v != current {
          assert Below(rows, v, current);
          var n: nat :| n > 0 && Up(rows, v, n) == Some(current);
          UpAdds(rows, v, n, 1);
          assert Up(rows, v, n + 1) == Some(next);
        }
      }
      WalkIsExact(rows, tenant, department, next, visited + {current});
    }
  }

  /**
   In a forest the walk rejects exactly the parents that are missing, of another tenant, or have the
   department itself on their ancestor path; it never meets a department twice.
   */
  lemma ValidationIsExact(rows: Table, tenant: Id, parent: Option<Id>, department: Option<Id>)
    requires Forest(rows)
    ensures Validated(rows, tenant, parent, department)
         == if parent.None? then None
            else if !Belongs(rows, tenant, parent.value) then Some(ParentInvalid)
            else if department.Some? && OnPath(rows, parent.value, department.value) then Some(WouldMakeCycle)
            else None
  {
    if parent.Some? && Belongs(rows, tenant, parent.value) {
      WalkIsExact(rows, tenant, department, parent.value, {});
    }
  }

  // ---------------------------------------------------------------- linking keeps the forest

  /** A path that does not meet `d` does not notice a change of `d`. */
  lemma {:induction false} PathElsewhere(rows: Table, d: Id, row: Department, x: Id, n: nat)
    requires forall i: nat {:trigger Up(rows, x, i)} :: i < n ==> Up(rows, x, i) != Some(d)
    ensures Up(rows[d := row], x, n) == Up(rows, x, n)
    decreases n
  {
    if n > 0 {
      assert Up(rows, x, 0) != Some(d);
      if x in rows && rows[x].parent.Some? {
        var y := rows[x].parent.value;
        forall i: nat | i < n - 1 ensures Up(rows, y, i) != Some(d) {
          assert Up(rows, x, i + 1) == Up(rows, y, i);
        }
        PathElsewhere(rows, d, row, y, n - 1);
      }
    }
  }

  /** The first time a path meets `d` in the changed table, it met `d` in the old one. */
  lemma {:induction false} FirstMeeting(rows: Table, d: Id, row: Department, x: Id, n: nat)
    requires Up(rows[d := row], x, n) == Some(d)
    ensures OnPath(rows, x, d)
    decreases n
  {
    if x == d {
      assert Up(rows, x, 0) == Some(d);
    } else {
      var y := rows[x].parent.value;
      FirstMeeting(rows, d, row, y, n - 1);
      OnPathStep(rows, x, d);
    }
  }

  lemma LinkKeepsAcyclic(rows: Table, d: Id, row: Department)
    requires Acyclic(rows) && (row.parent.Some? ==> !OnPath(rows, row.parent.value, d))
    ensures Acyclic(rows[d := row])
  {
    var after := rows[d := row];
    forall x, n: nat | n > 0 ensures Up(after, x, n) != Some(x) {
      if Up(after, x, n) == Some(x) {
        if i: nat :| i < n && Up(after, x, i) == Some(d) {
          UpAdds(after, x, i, n - i);
          UpAdds(after, d, n - i, i);
          assert Up(after, d, n) == Some(d);
          assert Up(after, row.parent.value, n - 1) == Some(d);
          FirstMeeting(rows, d, row, row.parent.value, n - 1);
          assert false;
        } else {
          SamePathBack(rows, d, row, x, n);
          assert false;
        }
      }
    }
  }

  lemma {:induction false} SamePathBack(rows: Table, d: Id, row: Department, x: Id, n: nat)
    requires forall i: nat {:trigger Up(rows[d := row], x, i)} :: i < n ==> Up(rows[d := row], x, i) != Some(d)
    ensures Up(rows[d := row], x, n) == Up(rows, x, n)
    decreases n
  {
    var after := rows[d := row];
    if n > 0 {
      assert Up(after, x, 0) != Some(d);
      if x in rows && rows[x].parent.Some? {
        var y := rows[x].parent.value;
        forall i: nat | i < n - 1 ensures Up(after, y, i) != Some(d) {
          assert Up(after, x, i + 1) == Up(after, y, i);
        }
        SamePathBack(rows, d, row, y, n - 1);
      }
    }
  }

  lemma LinkKeepsForest(rows: Table, d: Id, row: Department)
    requires Forest(rows) && (d in rows ==> rows[d].tenant == row.tenant)
    requires row.parent.Some? ==> Belongs(rows, row.tenant, row.parent.value) && !OnPath(rows, row.parent.value, d)
    ensures Forest(rows[d := row])
  {
    var after := rows[d := row];
    LinkKeepsAcyclic(rows, d, row);
    forall x | x in after ensures LinkStaysIn(after, x) {
      if x != d {
        assert LinkStaysIn(rows, x);
      }
    }
  }

  /** Nothing in a forest has a department that is not in the table above it. */
  lemma {:induction false} AbsentIsOnNoPath(rows: Table, x: Id, d: Id, n: nat)
    requires LinksStayIn(rows) && x in rows && d !in rows
    ensures Up(rows, x, n) != Some(d)
    decreases n
  {
    assert LinkStaysIn(rows, x);
    if n > 0 && rows[x].parent.Some? {
      AbsentIsOnNoPath(rows, rows[x].parent.value, d, n - 1);
    }
  }

  // ---------------------------------------------------------------- every run

  datatype Op =
    | Create(tenant: Id, id: Id, code: string, name: string, parent: Option<Id>)
    | Update(tenant: Id, id: Id, changes: Changes)

  function Apply(rows: Table, op: Op): Table {
    match op
    case Create(tenant, id, code, name, parent) => Created(rows, tenant, id, code, name, parent).1
    case Update(tenant, id, changes) => Updated(rows, tenant, id, changes).1
  }

  function Run(rows: Table, ops: seq<Op>): Table
    decreases |ops|
  {
    if ops == [] then rows else Run(Apply(rows, ops[0]), ops[1..])
  }

  predicate SameCode(rows: Table, d: Id, e: Id)
    requires d in rows && e in rows
  {
    rows[d].tenant == rows[e].tenant && rows[d].code == rows[e].code
  }

  ghost predicate CodesUnique(rows: Table) {
    forall d, e {:trigger SameCode(rows, d, e)} :: d in rows && e in rows && SameCode(rows, d, e) ==> d == e
  }

  lemma ApplyKeepsForest(rows: Table, op: Op)
    requires Forest(rows)
    ensures Forest(Apply(rows, op))
  {
    match op
    case Create(tenant, id, code, name, parent) =>
      ValidationIsExact(rows, tenant, parent, None);
      if Created(rows, tenant, id, code, name, parent).0.Ok? {
        if parent.Some? {
          forall n: nat ensures Up(rows, parent.value, n) != Some(id) {
            AbsentIsOnNoPath(rows, parent.value, id, n);
          }
        }
        LinkKeepsForest(rows, id, Department(tenant, code, name, Active, parent));
      }
    case Update(tenant, id, changes) =>
      if Updated(rows, tenant, id, changes).0.Ok? {
        if changes.parent.Some? {
          ValidationIsExact(rows, tenant, changes.parent.value, Some(id));
        } else if rows[id].parent.Some? {
          assert LinkStaysIn(rows, id);
          forall n: nat ensures Up(rows, rows[id].parent.value, n) != Some(id) {
            assert Up(rows, id, n + 1) == Up(rows, rows[id].parent.value, n);
          }
        }
        LinkKeepsForest(rows, id, Changed(rows[id], changes));
      }
  }

  lemma ApplyKeepsCodes(rows: Table, op: Op)
    requires CodesUnique(rows)
    ensures CodesUnique(Apply(rows, op))
  {
    var after := Apply(rows, op);
    forall d, e | d in after && e in after && SameCode(after, d, e) ensures d == e {
      if d in rows && e in rows {
        assert SameCode(rows, d, e);
      }
    }
  }

  /**
   From the empty table, after any run of the handlers: no department is its own ancestor, every link
   stays within one tenant, and no tenant uses a code twice.
   */
  lemma {:induction false} EveryRunKeepsTheForest(rows: Table, ops: seq<Op>)
    requires Forest(rows) && CodesUnique(rows)
    ensures Forest(Run(rows, ops)) && CodesUnique(Run(rows, ops))
    decreases |ops|
  {
    if ops != [] {
      ApplyKeepsForest(rows, ops[0]);
      ApplyKeepsCodes(rows, ops[0]);
      EveryRunKeepsTheForest(Apply(rows, ops[0]), ops[1..]);
    }
  }

  lemma {:induction false} EmptyIsAForest(d: Id, n: nat)
    requires n > 0
    ensures Up(map[], d, n) == None
  {
  }

  lemma RunIsAForest(ops: seq<Op>)
    ensures Forest(Run(map[], ops)) && CodesUnique(Run(map[], ops))
  {
    forall d, n: nat | n > 0 ensures Up(map[], d, n) != Some(d) {
      EmptyIsAForest(d, n);
    }
    EveryRunKeepsTheForest(map[], ops);
  }

  /** In every state a run reaches, the answer to a move is exact and the cycle branch is dead. */
  lemma MovesAreDecidedExactly(ops: seq<Op>, tenant: Id, parent: Id, department: Id)
    ensures var rows := Run(map[], ops);
            var answer := Validated(rows, tenant, Some(parent), Some(department));
            && Forest(rows) && CodesUnique(rows)
            && (answer == Some(ParentInvalid) <==> !Belongs(rows, tenant, parent))
            && (answer == Some(WouldMakeCycle) <==> Belongs(rows, tenant, parent) && OnPath(rows, parent, department))
            && answer != Some(ContainsCycle)
  {
    RunIsAForest(ops);
    ValidationIsExact(Run(map[], ops), tenant, Some(parent), Some(department));
  }

  /**
   In every state a run reaches, an update succeeds exactly for a department of the tenant whose new parent,
   if one is given, is of the tenant and not below it. Then each column is what is given, or what it was.
   */
  lemma UpdateExactlyWhen(ops: seq<Op>, tenant: Id, id: Id, changes: Changes)
    ensures var rows := Run(map[], ops);
            var (r, after) := Updated(rows, tenant, id, changes);
            && (r.Ok? <==>
                  && id in rows && rows[id].tenant == tenant
                  && (changes.parent.Some? && changes.parent.value.Some? ==>
                        && Belongs(rows, tenant, changes.parent.value.value)
                        && !OnPath(rows, changes.parent.value.value, id)))
            && (r.Err? ==> after == rows && (r.error.NotFound? <==> !Belongs(rows, tenant, id)))
            && (r.Ok? ==>
                  && after == rows[id := r.value] && r.value.tenant == rows[id].tenant && r.value.code == rows[id].code
                  && Some(r.value.name) in {changes.name, Some(rows[id].name)}
                  && (changes.name.Some? ==> r.value.name == changes.name.value)
                  && Some(r.value.status) in {changes.status, Some(rows[id].status)}
                  && (changes.status.Some? ==> r.value.status == changes.status.value)
                  && Some(r.value.parent) in {changes.parent, Some(rows[id].parent)}
                  && (changes.parent.Some? ==> r.value.parent == changes.parent.value))
  {
    if changes.parent.Some? {
      RunIsAForest(ops);
      ValidationIsExact(Run(map[], ops), tenant, changes.parent.value, Some(id));
    }
  }

  /**
   In every state a run reaches, a department is created exactly if its parent, if any, is of the tenant and
   no row has its id, nor its code in the tenant; it is active and has what was given.
   */
  lemma CreateExactlyWhen(ops: seq<Op>, tenant: Id, id: Id, code: string, name: string, parent: Option<Id>)
    ensures var rows := Run(map[], ops);
            var (r, after) := Created(rows, tenant, id, code, name, parent);
            && (r.Ok? <==>
                  && (parent.Some? ==> Belongs(rows, tenant, parent.value)) && id !in rows
                  && forall d :: d in rows && rows[d].tenant == tenant ==> rows[d].code != code)
            && (r.Err? ==>
                  && after == rows
                  && r.error == if parent.Some? && !Belongs(rows, tenant, parent.value) then ParentInvalid
                                else CodeTaken)
            && (r.Ok? ==>
                  && after == rows[id := r.value] && r.value.tenant == tenant && r.value.code == code
                  && r.value.name == name && r.value.parent == parent && r.value.status.Active?)
  {
    RunIsAForest(ops);
    ValidationIsExact(Run(map[], ops), tenant, parent, None);
  }
}
